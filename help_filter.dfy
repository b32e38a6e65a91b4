/**
 * The README help blocks: the filter `_run_help` applies to a command's
 * `--help` output, and the re-rendering of the `BEGIN:help` / `END:help`
 * sentinel blocks in `update_help`.
 *
 * The three line patterns of the filter (an "Options" header, a box
 * footer, a `--help` row) are parameters, so every property below holds
 * whatever lines they pick out.  The sentinel pattern is likewise replaced
 * by a given cut of the README into text and help blocks.
 */
module HelpFilter {
  import opened Chars

  /** The line patterns: `_HELP_OPTIONS_HEADER_RE.search`, `_HELP_OPTIONS_FOOTER_RE.match`, `_HELP_OPTIONS_HELP_ROW_RE.search`. */
  datatype Patterns = Patterns(isHeader: string -> bool, isFooter: string -> bool, isHelpRow: string -> bool)

  /** A line of a block that counts as a real option: not a help row, header or footer, and not blank. */
  predicate RealOption(pats: Patterns, l: string) {
    !pats.isHelpRow(l) && !pats.isHeader(l) && !pats.isFooter(l) && !Blank(l)
  }

  /** `has_real_options`. */
  predicate HasRealOption(pats: Patterns, block: seq<string>) {
    exists i :: 0 <= i < |block| && RealOption(pats, block[i])
  }

  /** The lines of a block that are not help rows, in order. */
  function WithoutHelpRows(pats: Patterns, block: seq<string>): (r: seq<string>)
    ensures |r| <= |block|
    decreases |block|
  {
    if block == [] then []
    else
      var front := WithoutHelpRows(pats, block[..|block| - 1]);
      var l := block[|block| - 1];
      if pats.isHelpRow(l) then front else front + [l]
  }

  /** What a closed block contributes to the output. */
  function Emitted(pats: Patterns, block: seq<string>): seq<string> {
    if HasRealOption(pats, block) then WithoutHelpRows(pats, block) else []
  }

  /** The state of the loop: the output so far, the buffered block, and whether a block is open. */
  datatype Scan = Scan(out: seq<string>, block: seq<string>, inOptions: bool)

  const Start := Scan([], [], false)

  /** One line through the filter. */
  function Step(pats: Patterns, s: Scan, line: string): Scan {
    if pats.isHeader(line) then Scan(s.out, [line], true)
    else if s.inOptions then
      if pats.isFooter(line) then Scan(s.out + Emitted(pats, s.block + [line]), [], false)
      else Scan(s.out, s.block + [line], true)
    else Scan(s.out + [line], s.block, false)
  }

  /** The state after feeding `lines` to the filter from state `s`. */
  function Scanned(pats: Patterns, s: Scan, lines: seq<string>): Scan
    decreases |lines|
  {
    if lines == [] then s else Step(pats, Scanned(pats, s, lines[..|lines| - 1]), lines[|lines| - 1])
  }

  /** The filtered lines of a whole help text. */
  function Filtered(pats: Patterns, lines: seq<string>): seq<string> {
    Scanned(pats, Start, lines).out
  }

  /** The loop over the lines in `_run_help`. */
  method FilterHelpLines(pats: Patterns, lines: seq<string>) returns (out: seq<string>)
    ensures out == Filtered(pats, lines)
  {
    out := [];
    var block: seq<string> := [];
    var inOptions := false;
    for i := 0 to |lines|
      invariant Scan(out, block, inOptions) == Scanned(pats, Start, lines[..i])
    {
      assert lines[..i + 1][..i] == lines[..i];
      var line := lines[i];
      if pats.isHeader(line) {
        inOptions := true;
        block := [line];
        continue;
      }
      if inOptions {
        block := block + [line];
        if pats.isFooter(line) {
          var hasRealOptions := exists k :: 0 <= k < |block| && RealOption(pats, block[k]);
          if hasRealOptions {
            out := AppendOptionLines(pats, out, block);
          }
          block := [];
          inOptions := false;
        }
        continue;
      }
      out := out + [line];
    }
    assert lines[..|lines|] == lines;
  }

  /** The inner loop: the block's lines appended to the output, help rows left out. */
  method AppendOptionLines(pats: Patterns, out: seq<string>, block: seq<string>) returns (r: seq<string>)
    ensures r == out + WithoutHelpRows(pats, block)
  {
    r := out;
    for j := 0 to |block|
      invariant r == out + WithoutHelpRows(pats, block[..j])
    {
      assert block[..j + 1][..j] == block[..j];
      if !pats.isHelpRow(block[j]) {
        r := r + [block[j]];
      }
    }
    assert block[..|block|] == block;
  }

  /** Feeding two runs of lines one after the other is feeding their concatenation. */
  lemma {:induction false} ScannedAppend(pats: Patterns, s: Scan, a: seq<string>, b: seq<string>)
    ensures Scanned(pats, s, a + b) == Scanned(pats, Scanned(pats, s, a), b)
    decreases |b|
  {
    if b == [] {
      assert a + b == a;
    } else {
      var b' := b[..|b| - 1];
      assert (a + b)[..|a + b| - 1] == a + b';
      ScannedAppend(pats, s, a, b');
    }
  }

  /** True when no line of `lines` is a header. */
  predicate NoHeader(pats: Patterns, lines: seq<string>) {
    forall i :: 0 <= i < |lines| ==> !pats.isHeader(lines[i])
  }

  /** True when no line of `lines` is a header or a footer: the inside of a block. */
  predicate BlockBody(pats: Patterns, lines: seq<string>) {
    forall i :: 0 <= i < |lines| ==> !pats.isHeader(lines[i]) && !pats.isFooter(lines[i])
  }

  /** Outside a block, lines without a header are copied to the output unchanged and in order. */
  lemma {:induction false} CopiesPlainLines(pats: Patterns, out: seq<string>, block: seq<string>, lines: seq<string>)
    requires NoHeader(pats, lines)
    ensures Scanned(pats, Scan(out, block, false), lines) == Scan(out + lines, block, false)
    decreases |lines|
  {
    if lines != [] {
      var front := lines[..|lines| - 1];
      CopiesPlainLines(pats, out, block, front);
      assert out + front + [lines[|lines| - 1]] == out + lines;
    }
  }

  /** Inside a block, lines that are neither header nor footer are buffered and nothing is output. */
  lemma {:induction false} BuffersBody(pats: Patterns, out: seq<string>, block: seq<string>, lines: seq<string>)
    requires BlockBody(pats, lines)
    ensures Scanned(pats, Scan(out, block, true), lines) == Scan(out, block + lines, true)
    decreases |lines|
  {
    if lines != [] {
      var front := lines[..|lines| - 1];
      BuffersBody(pats, out, block, front);
      assert block + front + [lines[|lines| - 1]] == block + lines;
    }
  }

  /**
   * A header starts a fresh block whatever came before: the lines buffered
   * from an unfinished block are dropped and the output so far is kept.
   */
  lemma HeaderRestarts(pats: Patterns, s: Scan, before: seq<string>, header: string, after: seq<string>)
    requires pats.isHeader(header)
    ensures Scanned(pats, s, before + [header] + after) ==
      Scanned(pats, Scan(Scanned(pats, s, before).out, [header], true), after)
  {
    ScannedAppend(pats, s, before + [header], after);
    assert (before + [header])[..|before|] == before;
  }

  /**
   * A block from a header to the first footer: its lines are emitted, help
   * rows removed, exactly when it holds a real option, and the lines after
   * it are filtered afresh.
   */
  lemma ClosedBlock(pats: Patterns, out: seq<string>, body: seq<string>, footer: string, after: seq<string>, header: string)
    requires pats.isHeader(header) && BlockBody(pats, body) && pats.isFooter(footer) && !pats.isHeader(footer)
    ensures Scanned(pats, Scan(out, [header], true), body + [footer] + after) ==
      Scanned(pats, Scan(out + Emitted(pats, [header] + body + [footer]), [], false), after)
  {
    var s := Scan(out, [header], true);
    ScannedAppend(pats, s, body + [footer], after);
    ScannedAppend(pats, s, body, [footer]);
    BuffersBody(pats, out, [header], body);
  }

  /** The whole-text form: a help text with one options block, between plain lines. */
  lemma {:induction false} FilteredOneBlock(pats: Patterns, before: seq<string>, header: string, body: seq<string>,
                                            footer: string, after: seq<string>)
    requires NoHeader(pats, before) && pats.isHeader(header) && BlockBody(pats, body)
    requires pats.isFooter(footer) && !pats.isHeader(footer) && NoHeader(pats, after)
    ensures Filtered(pats, before + [header] + body + [footer] + after) ==
      before + Emitted(pats, [header] + body + [footer]) + after
  {
    var lines := before + [header] + body + [footer] + after;
    assert lines == before + [header] + (body + [footer] + after);
    HeaderRestarts(pats, Start, before, header, body + [footer] + after);
    CopiesPlainLines(pats, [], [], before);
    assert [] + before == before;
    ClosedBlock(pats, before, body, footer, after, header);
    CopiesPlainLines(pats, before + Emitted(pats, [header] + body + [footer]), [], after);
  }

  /** A block still open when the help text ends contributes nothing. */
  lemma {:induction false} UnfinishedBlockDropped(pats: Patterns, before: seq<string>, header: string, body: seq<string>)
    requires NoHeader(pats, before) && pats.isHeader(header) && BlockBody(pats, body)
    ensures Filtered(pats, before + [header] + body) == before
  {
    HeaderRestarts(pats, Start, before, header, body);
    CopiesPlainLines(pats, [], [], before);
    assert [] + before == before;
    BuffersBody(pats, before, [header], body);
  }

  /** A help text without an options header comes through unchanged. */
  lemma NoOptionsUnchanged(pats: Patterns, lines: seq<string>)
    requires NoHeader(pats, lines)
    ensures Filtered(pats, lines) == lines
  {
    CopiesPlainLines(pats, [], [], lines);
    assert [] + lines == lines;
  }

  /** Removing help rows keeps exactly the other lines, in order. */
  lemma {:induction false} WithoutHelpRowsFacts(pats: Patterns, block: seq<string>)
    ensures forall l :: l in WithoutHelpRows(pats, block) ==> l in block && !pats.isHelpRow(l)
    ensures forall i :: 0 <= i < |block| && !pats.isHelpRow(block[i]) ==> block[i] in WithoutHelpRows(pats, block)
    ensures NoHelpRow(pats, block) ==> WithoutHelpRows(pats, block) == block
    decreases |block|
  {
    if block != [] {
      var front := block[..|block| - 1];
      WithoutHelpRowsFacts(pats, front);
      assert block == front + [block[|block| - 1]];
    }
  }

  /**
   * The filter works line by line: filtering two pieces of a block and
   * joining the results is filtering the whole, so the kept lines keep
   * their order and their number of occurrences.
   */
  lemma {:induction false} WithoutHelpRowsAppend(pats: Patterns, a: seq<string>, b: seq<string>)
    ensures WithoutHelpRows(pats, a + b) == WithoutHelpRows(pats, a) + WithoutHelpRows(pats, b)
    decreases |b|
  {
    if b == [] {
      assert a + b == a;
    } else {
      var front := b[..|b| - 1];
      WithoutHelpRowsAppend(pats, a, front);
      assert (a + b)[..|a + b| - 1] == a + front;
    }
  }

  predicate NoHelpRow(pats: Patterns, block: seq<string>) {
    forall i :: 0 <= i < |block| ==> !pats.isHelpRow(block[i])
  }

  // ---------------------------------------------------------------------
  // The rendered help text

  /** `"\n".join(lines)`. */
  function Join(lines: seq<string>): (r: string)
    ensures lines == [] ==> r == []
    ensures |lines| == 1 ==> r == lines[0]
    decreases |lines|
  {
    if lines == [] then []
    else if |lines| == 1 then lines[0]
    else Join(lines[..|lines| - 1]) + "\n" + lines[|lines| - 1]
  }

  /** The number of leading whitespace characters of `s`. */
  function LeadingWhitespace(s: string): (n: nat)
    ensures n <= |s|
    ensures forall i :: 0 <= i < n ==> IsWhitespace(s[i])
    ensures n < |s| ==> !IsWhitespace(s[n])
    decreases |s|
  {
    if s != [] && IsWhitespace(s[0]) then 1 + LeadingWhitespace(s[1..]) else 0
  }

  /** The number of trailing whitespace characters of `s`. */
  function TrailingWhitespace(s: string): (n: nat)
    ensures n <= |s|
    ensures forall i :: |s| - n <= i < |s| ==> IsWhitespace(s[i])
    ensures n < |s| ==> !IsWhitespace(s[|s| - n - 1])
    decreases |s|
  {
    if s != [] && IsWhitespace(s[|s| - 1]) then 1 + TrailingWhitespace(s[..|s| - 1]) else 0
  }

  /**
   * `str.strip()`: the text cut at its first and its last character that is
   * not whitespace; only whitespace is removed, and none is left at either
   * end.
   */
  function Strip(s: string): (r: string)
    ensures exists i, j :: 0 <= i <= j <= |s| && r == s[i..j] && Blank(s[..i]) && Blank(s[j..])
    ensures r != [] ==> !IsWhitespace(r[0]) && !IsWhitespace(r[|r| - 1])
    ensures r == [] <==> Blank(s)
  {
    var i := LeadingWhitespace(s);
    if i == |s| then
      assert s[..i] == s;
      s[i..i]
    else
      var j := |s| - TrailingWhitespace(s);
      assert i < j;
      assert !Blank(s) by { assert !IsWhitespace(s[i]); }
      assert Blank(s[..i]) by {
        forall k | 0 <= k < i ensures IsWhitespace(s[..i][k]) {
          assert s[..i][k] == s[k];
        }
      }
      assert Blank(s[j..]) by {
        forall k | 0 <= k < |s[j..]| ensures IsWhitespace(s[j..][k]) {
          assert s[j..][k] == s[j + k];
        }
      }
      s[i..j]
  }

  /** Stripping twice strips nothing more. */
  lemma StripIdempotent(s: string)
    ensures Strip(Strip(s)) == Strip(s)
  {
    var r := Strip(s);
    if r != [] {
      assert LeadingWhitespace(r) == 0;
      assert TrailingWhitespace(r) == 0;
      assert r[0..|r|] == r;
    }
  }

  /** The help text `_run_help` returns: the filtered lines joined, stripped and fenced as bash. */
  function Fenced(text: string): (r: string)
    ensures |r| == |text| + 12
    ensures r[..8] == "```bash\n" && r[|r| - 4..] == "\n```"
    ensures r[8..|r| - 4] == text
  {
    "```bash\n" + text + "\n```"
  }

  /** `_run_help` once the command has been run and its output split into `lines`. */
  method RunHelp(pats: Patterns, cmd: string, lines: seq<string>) returns (r: (string, string))
    ensures r.0 == cmd
    ensures r.1 == Fenced(Strip(Join(Filtered(pats, lines))))
  {
    var out := FilterHelpLines(pats, lines);
    var output := Strip(Join(out));
    r := (cmd, Fenced(output));
  }

  // ---------------------------------------------------------------------
  // Sentinel blocks

  /**
   * A README cut at its help blocks: plain text, or a match of the sentinel
   * pattern holding the command it names and the exact text it matched
   * (the surrounding whitespace included).
   */
  datatype Segment = Text(s: string) | HelpBlock(cmd: string, raw: string)

  /** The README the cut comes from. */
  function Content(segs: seq<Segment>): string
    decreases |segs|
  {
    if segs == [] then []
    else Content(segs[..|segs| - 1]) + (match segs[|segs| - 1] case Text(s) => s case HelpBlock(_, raw) => raw)
  }

  /** The commands named by the help blocks, in order: `commands`. */
  function Commands(segs: seq<Segment>): (r: seq<string>)
    ensures |r| <= |segs|
    decreases |segs|
  {
    if segs == [] then []
    else
      var front := Commands(segs[..|segs| - 1]);
      match segs[|segs| - 1]
      case Text(_) => front
      case HelpBlock(cmd, _) => front + [cmd]
  }

  /** `_replace`: a help block rendered with the help text of its command. */
  function Rendered(cmd: string, help: string): string {
    "\n\n<!-- BEGIN:help " + cmd + " -->\n" + help + "\n<!-- END:help " + cmd + " -->\n\n"
  }

  /** The README after `_HELP_BLOCK_RE.sub(_replace, content)`. */
  function Substituted(segs: seq<Segment>, helpMap: map<string, string>): string
    requires forall c :: c in Commands(segs) ==> c in helpMap
    decreases |segs|
  {
    if segs == [] then []
    else
      var front := segs[..|segs| - 1];
      CommandsPrefix(segs);
      Substituted(front, helpMap) +
        (match segs[|segs| - 1] case Text(s) => s case HelpBlock(cmd, _) => Rendered(cmd, helpMap[cmd]))
  }

  /** Every command of a prefix of the cut is a command of the cut. */
  lemma CommandsPrefix(segs: seq<Segment>)
    requires segs != []
    ensures forall c :: c in Commands(segs[..|segs| - 1]) ==> c in Commands(segs)
  {
  }

  /** The outcome of `update_help`: no help blocks, nothing to change, or the new README to write. */
  datatype HelpUpdate = NoBlocks | UpToDate | Changed(content: string)

  /**
   * `update_help` on a README already cut at its help blocks, with
   * `helpOf` giving each command's rendered help (what `_run_help` returns
   * for it).
   */
  method UpdateHelp(segs: seq<Segment>, helpOf: string -> string) returns (r: HelpUpdate)
    ensures r.NoBlocks? <==> Commands(segs) == []
    ensures Commands(segs) != [] ==>
      var updated := Substituted(segs, map c | c in Commands(segs) :: helpOf(c));
      if updated == Content(segs) then r.UpToDate? else r == Changed(updated)
  {
    var commands := Commands(segs);
    if commands == [] {
      return NoBlocks;
    }
    var helpMap: map<string, string> := map[];
    for j := 0 to |commands|
      invariant helpMap == map c | c in commands[..j] :: helpOf(c)
    {
      assert commands[..j + 1] == commands[..j] + [commands[j]];
      helpMap := helpMap[commands[j] := helpOf(commands[j])];
    }
    assert commands[..|commands|] == commands;
    var updated := Substituted(segs, helpMap);
    if updated == Content(segs) {
      return UpToDate;
    }
    return Changed(updated);
  }

  /** The cut of the README after substitution: every help block now holds its rendering. */
  function Rerendered(segs: seq<Segment>, helpMap: map<string, string>): (r: seq<Segment>)
    requires forall c :: c in Commands(segs) ==> c in helpMap
    ensures |r| == |segs|
    decreases |segs|
  {
    if segs == [] then []
    else
      var front := segs[..|segs| - 1];
      CommandsPrefix(segs);
      Rerendered(front, helpMap) +
        [match segs[|segs| - 1] case Text(s) => Text(s) case HelpBlock(cmd, _) => HelpBlock(cmd, Rendered(cmd, helpMap[cmd]))]
  }

  /**
   * Re-rendering keeps the commands and the substituted README, and the
   * substituted README is exactly what the re-rendered cut reads as: when
   * the new README is cut the same way, a second run finds nothing to
   * change.
   */
  lemma {:induction false} RerenderedFixedPoint(segs: seq<Segment>, helpMap: map<string, string>)
    requires forall c :: c in Commands(segs) ==> c in helpMap
    ensures Commands(Rerendered(segs, helpMap)) == Commands(segs)
    ensures Content(Rerendered(segs, helpMap)) == Substituted(segs, helpMap)
    ensures Substituted(Rerendered(segs, helpMap), helpMap) == Substituted(segs, helpMap)
    decreases |segs|
  {
    if segs != [] {
      var front := segs[..|segs| - 1];
      CommandsPrefix(segs);
      RerenderedFixedPoint(front, helpMap);
      var r := Rerendered(segs, helpMap);
      assert r[..|r| - 1] == Rerendered(front, helpMap);
    }
  }

  /** Running `update_help` again on the README it wrote, cut the same way and with the same help, changes nothing. */
  method SecondRunUpToDate(segs: seq<Segment>, helpOf: string -> string) returns (r: HelpUpdate)
    requires Commands(segs) != []
    ensures r == UpToDate
  {
    var helpMap := map c | c in Commands(segs) :: helpOf(c);
    RerenderedFixedPoint(segs, helpMap);
    r := UpdateHelp(Rerendered(segs, helpMap), helpOf);
  }
}
