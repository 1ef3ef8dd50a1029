/** The indentation repair of src/confnormalize.hpp: the items of a block
    sequence are moved to the indent of its first item. */
module ConfNormalize {
  import opened Common
  import opened Text

  // --------------------------------------------------------------------- lines

  /** The number of spaces a line starts with. */
  function Indent(line: string): (n: nat)
    ensures n <= |line|
    ensures forall i :: 0 <= i < n ==> line[i] == ' '
    ensures n < |line| ==> line[n] != ' '
  {
    if line != "" && line[0] == ' ' then 1 + Indent(line[1..]) else 0
  }

  /** A line after its leading spaces. */
  function Strip(line: string): string { line[Indent(line)..] }

  function Spaces(n: nat): (s: string)
    ensures |s| == n && forall i :: 0 <= i < n ==> s[i] == ' '
  {
    seq(n, _ => ' ')
  }

  function Reindent(line: string, n: nat): string { Spaces(n) + Strip(line) }

  /** A block-sequence item: spaces, then '-', then a space, a tab or the end. */
  predicate IsItem(line: string) {
    var s := Strip(line);
    s != "" && s[0] == '-' && (|s| > 1 ==> s[1] == ' ' || s[1] == '\t')
  }

  predicate IsBlankOrComment(line: string) {
    line == "" || line[0] == '#' || ((line[0] == ' ' || line[0] == '\t') && IsBlankOrComment(line[1..]))
  }

  /** A blank line or a comment: spaces and tabs, then the end or a '#'. */
  lemma {:induction false} BlankOrCommentExactly(line: string)
    ensures IsBlankOrComment(line) <==> exists n :: BlankUpTo(line, n) && (n == |line| || line[n] == '#')
  {
    if line == "" {
      assert BlankUpTo(line, 0);
    } else if line[0] == ' ' || line[0] == '\t' {
      var rest := line[1..];
      BlankOrCommentExactly(rest);
      if n :| BlankUpTo(rest, n) && (n == |rest| || rest[n] == '#') {
        assert BlankUpTo(line, n + 1);
      }
      if n :| BlankUpTo(line, n) && (n == |line| || line[n] == '#') {
        assert BlankUpTo(rest, n - 1);
      }
    } else {
      assert BlankUpTo(line, 0);
      assert forall n :: BlankUpTo(line, n) ==> n == 0;
    }
  }

  /** The first `n` characters are spaces and tabs. */
  predicate BlankUpTo(line: string, n: int) {
    0 <= n <= |line| && forall i :: 0 <= i < n ==> line[i] == ' ' || line[i] == '\t'
  }

  /** The line is `n` spaces and a dash, and then a space, a tab or the end. */
  predicate DashAt(line: string, n: int) {
    && 0 <= n < |line| && (forall i :: 0 <= i < n ==> line[i] == ' ') && line[n] == '-'
    && (n + 1 < |line| ==> line[n + 1] == ' ' || line[n + 1] == '\t')
  }

  lemma ItemExactly(line: string, n: int)
    ensures DashAt(line, n) <==> IsItem(line) && n == Indent(line)
  {
    if DashAt(line, n) {
      assert line == Spaces(n) + line[n..];
      IndentOfSpaces(n, line[n..]);
    }
  }

  lemma {:induction false} IndentOfSpaces(n: nat, rest: string)
    requires rest == "" || rest[0] != ' '
    ensures Indent(Spaces(n) + rest) == n
  {
    var line := Spaces(n) + rest;
    if n > 0 {
      assert line[1..] == Spaces(n - 1) + rest;
      IndentOfSpaces(n - 1, rest);
    } else {
      assert line == rest;
    }
  }

  lemma ReindentKeepsText(line: string, n: nat)
    ensures Indent(Reindent(line, n)) == n && Strip(Reindent(line, n)) == Strip(line)
  {
    IndentOfSpaces(n, Strip(line));
  }

  lemma ReindentToOwn(line: string)
    ensures Reindent(line, Indent(line)) == line
  {
    assert line == line[..Indent(line)] + line[Indent(line)..];
    assert Spaces(Indent(line)) == line[..Indent(line)];
  }

  // ------------------------------------------------------------------ the repair

  /** Line by line: `run` is the indent of the sequence that the lines before
      belong to, if they belong to one. */
  function Repair(lines: seq<string>, run: Option<nat>): (out: seq<string>)
    ensures |out| == |lines|
  {
    if lines == [] then []
    else if IsItem(lines[0]) then
      var indent := if run.Some? then run.value else Indent(lines[0]);
      [Reindent(lines[0], indent)] + Repair(lines[1..], Some(indent))
    else if IsBlankOrComment(lines[0]) then [lines[0]] + Repair(lines[1..], run)
    else [lines[0]] + Repair(lines[1..], None)
  }

  /** The run that the next line continues. */
  function RunAfter(lines: seq<string>, run: Option<nat>): Option<nat> {
    if lines == [] then run
    else if IsItem(lines[0]) then RunAfter(lines[1..], Some(if run.Some? then run.value else Indent(lines[0])))
    else if IsBlankOrComment(lines[0]) then RunAfter(lines[1..], run)
    else RunAfter(lines[1..], None)
  }

  lemma {:induction false} RepairOfConcat(a: seq<string>, b: seq<string>, run: Option<nat>)
    ensures Repair(a + b, run) == Repair(a, run) + Repair(b, RunAfter(a, run))
  {
    hide IsItem, IsBlankOrComment, Indent, Reindent;
    if a == [] {
      assert a + b == b;
    } else {
      assert (a + b)[1..] == a[1..] + b;
      var next := if IsItem(a[0]) then Some(if run.Some? then run.value else Indent(a[0]))
                  else if IsBlankOrComment(a[0]) then run else None;
      RepairOfConcat(a[1..], b, next);
    }
  }

  lemma {:induction false} RepairIsIdempotent(lines: seq<string>, run: Option<nat>)
    ensures Repair(Repair(lines, run), run) == Repair(lines, run)
  {
    if lines != [] {
      var line, rest := lines[0], lines[1..];
      if IsItem(line) {
        var indent := if run.Some? then run.value else Indent(line);
        ReindentKeepsText(line, indent);
        ReindentToOwn(Reindent(line, indent));
        RepairIsIdempotent(rest, Some(indent));
        assert Repair(lines, run)[1..] == Repair(rest, Some(indent));
      } else if IsBlankOrComment(line) {
        RepairIsIdempotent(rest, run);
        assert Repair(lines, run)[1..] == Repair(rest, run);
      } else {
        RepairIsIdempotent(rest, None);
        assert Repair(lines, run)[1..] == Repair(rest, None);
      }
    }
  }

  /** Only leading spaces change, and only those of items. */
  lemma {:induction false} RepairKeepsText(lines: seq<string>, run: Option<nat>, i: nat)
    requires i < |lines|
    ensures Strip(Repair(lines, run)[i]) == Strip(lines[i])
    ensures !IsItem(lines[i]) ==> Repair(lines, run)[i] == lines[i]
  {
    hide IsItem, IsBlankOrComment, Indent, Strip, Reindent;
    var next := if IsItem(lines[0]) then Some(if run.Some? then run.value else Indent(lines[0]))
                else if IsBlankOrComment(lines[0]) then run else None;
    if i == 0 {
      if IsItem(lines[0]) {
        ReindentKeepsText(lines[0], next.value);
      }
    } else {
      RepairKeepsText(lines[1..], next, i - 1);
    }
  }

  /** Nothing but items, blank lines and comments lies between two lines. */
  predicate SameRun(lines: seq<string>, i: int, j: int) {
    forall k :: i < k < j && 0 <= k < |lines| ==> IsItem(lines[k]) || IsBlankOrComment(lines[k])
  }

  /** The items of a run all end up at one indent, and if no item comes before
      them it is the indent of the first. */
  lemma {:induction false} RunIsAligned(lines: seq<string>, run: Option<nat>, i: nat, j: nat)
    requires i < j < |lines| && IsItem(lines[i]) && IsItem(lines[j]) && SameRun(lines, i, j)
    ensures Indent(Repair(lines, run)[i]) == Indent(Repair(lines, run)[j])
  {
    hide IsItem, IsBlankOrComment, Indent, Reindent;
    var next := if IsItem(lines[0]) then Some(if run.Some? then run.value else Indent(lines[0]))
                else if IsBlankOrComment(lines[0]) then run else None;
    var rest := lines[1..];
    if i > 0 {
      assert forall k :: i - 1 < k < j - 1 ==> rest[k] == lines[k + 1];
      RunIsAligned(rest, next, i - 1, j - 1);
    } else {
      RunFromItem(lines, run, j);
    }
  }

  lemma RunFromItem(lines: seq<string>, run: Option<nat>, j: nat)
    requires 0 < j < |lines| && IsItem(lines[0]) && IsItem(lines[j]) && SameRun(lines, 0, j)
    ensures Indent(Repair(lines, run)[0]) == Indent(Repair(lines, run)[j])
  {
    var indent := if run.Some? then run.value else Indent(lines[0]);
    ReindentKeepsText(lines[0], indent);
    assert forall k :: 0 <= k < j - 1 ==> lines[1..][k] == lines[k + 1];
    ItemJoinsRun(lines[1..], indent, j - 1);
  }

  lemma {:induction false} ItemJoinsRun(lines: seq<string>, indent: nat, j: nat)
    requires j < |lines| && IsItem(lines[j])
    requires forall k :: 0 <= k < j ==> IsItem(lines[k]) || IsBlankOrComment(lines[k])
    ensures Indent(Repair(lines, Some(indent))[j]) == indent
  {
    if j == 0 {
      ReindentKeepsText(lines[0], indent);
    } else {
      ItemJoinsRun(lines[1..], indent, j - 1);
    }
  }

  /** The item at `i` is the first of its run. */
  predicate StartsRun(lines: seq<string>, i: nat)
    requires i < |lines|
  {
    IsItem(lines[i]) && forall j :: 0 <= j < i && IsItem(lines[j]) ==> !SameRun(lines, j, i)
  }

  /** A run that is still open was opened by an item, and nothing ended it since. */
  lemma {:induction false} OpenRunHasItem(lines: seq<string>, run: Option<nat>) returns (j: int)
    requires RunAfter(lines, run).Some?
    ensures -1 <= j < |lines|
    ensures forall k :: j < k < |lines| ==> IsItem(lines[k]) || IsBlankOrComment(lines[k])
    ensures if j >= 0 then IsItem(lines[j]) else run.Some?
  {
    j := -1;
    if lines != [] {
      var next := if IsItem(lines[0]) then Some(if run.Some? then run.value else Indent(lines[0]))
                  else if IsBlankOrComment(lines[0]) then run else None;
      var rest := lines[1..];
      var j' := OpenRunHasItem(rest, next);
      assert forall k :: j' + 1 < k < |lines| ==> lines[k] == rest[k - 1];
      j := if j' >= 0 then j' + 1 else if IsItem(lines[0]) then 0 else -1;
    }
  }

  lemma OpenRunIsOlder(lines: seq<string>, i: nat)
    requires i < |lines| && RunAfter(lines[..i], None).Some?
    ensures !StartsRun(lines, i)
  {
    var j := OpenRunHasItem(lines[..i], None);
    assert IsItem(lines[j]) && SameRun(lines, j, i);
  }

  /** The first item of a run stays where it is. */
  lemma FirstItemStays(lines: seq<string>, i: nat)
    requires i < |lines| && StartsRun(lines, i)
    ensures Repair(lines, None)[i] == lines[i]
  {
    if RunAfter(lines[..i], None).Some? {
      OpenRunIsOlder(lines, i);
    }
    CutAt(lines, i);
    FirstAfter(lines[..i], lines[i..]);
  }

  lemma FirstAfter(a: seq<string>, b: seq<string>)
    requires RunAfter(a, None) == None && b != [] && IsItem(b[0])
    ensures Repair(a + b, None)[|a|] == b[0]
  {
    RepairOfConcat(a, b, None);
    FirstOfRepair(b);
  }

  lemma CutAt(lines: seq<string>, i: nat)
    requires i <= |lines|
    ensures lines == lines[..i] + lines[i..]
  {
  }

  lemma FirstOfRepair(lines: seq<string>)
    requires lines != [] && IsItem(lines[0])
    ensures Repair(lines, None)[0] == lines[0]
  {
    ReindentToOwn(lines[0]);
  }

  // -------------------------------------------------------------------- the text

  /** The lines of a text with a newline between them, and after the last if asked. */
  function JoinLines(lines: seq<string>, trailing: bool): string {
    if lines == [] then ""
    else if |lines| == 1 then lines[0] + (if trailing then "\n" else "")
    else lines[0] + ("\n" + JoinLines(lines[1..], trailing))
  }

  function RepairText(text: string): string {
    JoinLines(Repair(Split(text), None), EndsLine(text))
  }

  lemma {:induction false} LineEndOfLine(line: string)
    requires IsLine(line)
    ensures LineEnd(line) == |line|
  {
    if line != "" {
      LineEndOfLine(line[1..]);
    }
  }

  /** A list of lines that some text can have. */
  predicate AreTextLines(lines: seq<string>, trailing: bool) {
    && AreLines(lines)
    && (lines == [] ==> !trailing)
    && (lines != [] && !trailing ==> lines[|lines| - 1] != "")
  }

  lemma {:induction false} SplitOfJoinLines(lines: seq<string>, trailing: bool)
    requires AreTextLines(lines, trailing)
    ensures Split(JoinLines(lines, trailing)) == lines && EndsLine(JoinLines(lines, trailing)) == trailing
  {
    if |lines| == 1 {
      var line := lines[0];
      if trailing {
        assert line + "\n" == line + ("\n" + "");
        SplitOfCut(line, "");
        EndsLineOfCut(line, "");
      } else {
        assert line + "" == line;
        LineEndOfLine(line);
      }
    } else if |lines| > 1 {
      var rest := JoinLines(lines[1..], trailing);
      SplitOfJoinLines(lines[1..], trailing);
      SplitOfCut(lines[0], rest);
      EndsLineOfCut(lines[0], rest);
      assert lines == [lines[0]] + lines[1..];
    }
  }

  lemma {:induction false} JoinLinesOfSplit(text: string)
    ensures JoinLines(Split(text), EndsLine(text)) == text && AreTextLines(Split(text), EndsLine(text))
    decreases |text|
  {
    SplitYieldsLines(text);
    if text != "" {
      var n := LineEnd(text);
      if n < |text| {
        var rest := text[n + 1..];
        CutLine(text, n);
        JoinLinesOfSplit(rest);
        EndsLineOfCut(text[..n], rest);
        assert Split(text) == [text[..n]] + Split(rest);
        assert Split(text)[1..] == Split(rest);
      } else {
        assert text[..n] == text && text + "" == text;
      }
    }
  }

  lemma RepairKeepsLines(lines: seq<string>, trailing: bool)
    requires AreTextLines(lines, trailing)
    ensures AreTextLines(Repair(lines, None), trailing)
  {
    var out := Repair(lines, None);
    forall i | 0 <= i < |out| ensures IsLine(out[i]) && (lines[i] != "" ==> out[i] != "") {
      RepairKeepsText(lines, None, i);
      assert IsLine(Strip(lines[i]));
      assert out[i] == out[i][..Indent(out[i])] + Strip(out[i]);
    }
  }

  /** The repaired text has the repaired lines and the same end, and repairing it
      again changes nothing. */
  lemma RepairedText(text: string)
    ensures var out := RepairText(text);
            && Split(out) == Repair(Split(text), None)
            && EndsLine(out) == EndsLine(text)
            && RepairText(out) == out
            && (out == text <==> Repair(Split(text), None) == Split(text))
  {
    var lines := Split(text);
    JoinLinesOfSplit(text);
    RepairKeepsLines(lines, EndsLine(text));
    SplitOfJoinLines(Repair(lines, None), EndsLine(text));
    RepairIsIdempotent(lines, None);
  }

  // ---------------------------------------------------------- implementation

  lemma BlankIsNotItem(line: string)
    requires IsBlankOrComment(line)
    ensures !IsItem(line)
  {
    if line != "" && line[0] == ' ' {
      BlankIsNotItem(line[1..]);
      assert Strip(line) == Strip(line[1..]);
    }
  }

  /** `isBlankOrComment`. */
  method BlankOrComment(line: string) returns (r: bool)
    ensures r == IsBlankOrComment(line)
  {
    var rest := line;
    while rest != ""
      invariant IsBlankOrComment(rest) == IsBlankOrComment(line)
      decreases |rest|
    {
      if rest[0] == ' ' || rest[0] == '\t' {
        rest := rest[1..];
      } else {
        return rest[0] == '#';
      }
    }
    return true;
  }

  /** `isSeqItem`. */
  method SeqItem(line: string) returns (ok: bool, indent: nat)
    ensures ok == IsItem(line)
    ensures ok ==> indent == Indent(line)
  {
    var i := 0;
    while i < |line| && line[i] == ' '
      invariant 0 <= i <= |line|
      invariant Indent(line) == i + Indent(line[i..])
    {
      assert line[i..][1..] == line[i + 1..];
      i := i + 1;
    }
    assert Indent(line) == i;
    if i >= |line| || line[i] != '-' {
      return false, 0;
    }
    var after := i + 1;
    if after < |line| && line[after] != ' ' && line[after] != '\t' {
      return false, 0;
    }
    return true, i;
  }

  /** What `splitLines` still has to do when it holds `lines` and `cur`. */
  function SplitFrom(lines: seq<string>, cur: string, rest: string): seq<string> {
    lines + Split(cur + rest)
  }

  lemma SplitAtNewline(lines: seq<string>, cur: string, rest: string)
    requires IsLine(cur) && rest != "" && rest[0] == '\n'
    ensures SplitFrom(lines, cur, rest) == SplitFrom(lines + [cur], "", rest[1..])
  {
    assert cur + rest == cur + ("\n" + rest[1..]);
    SplitOfCut(cur, rest[1..]);
    assert "" + rest[1..] == rest[1..];
  }

  lemma SplitAtOther(lines: seq<string>, cur: string, rest: string)
    requires rest != ""
    ensures SplitFrom(lines, cur, rest) == SplitFrom(lines, cur + [rest[0]], rest[1..])
  {
    assert cur + rest == (cur + [rest[0]]) + rest[1..];
  }

  lemma SplitAtEnd(lines: seq<string>, cur: string)
    requires IsLine(cur)
    ensures SplitFrom(lines, cur, "") == if cur == "" then lines else lines + [cur]
  {
    assert cur + "" == cur;
    LineEndOfLine(cur);
  }

  predicate EndAgrees(cur: string, rest: string, text: string) {
    if rest == "" then (cur == "" && text != "") == EndsLine(text) else EndsLine(rest) == EndsLine(text)
  }

  lemma EndStep(cur: string, rest: string, text: string)
    requires rest != "" && EndAgrees(cur, rest, text) && text != ""
    ensures EndAgrees(if rest[0] == '\n' then "" else cur + [rest[0]], rest[1..], text)
  {
  }

  /** `splitLines`. */
  method SplitLines(text: string) returns (lines: seq<string>, trailingNewline: bool)
    ensures lines == Split(text) && trailingNewline == EndsLine(text)
  {
    lines := [];
    var cur, rest := "", text;
    assert "" + text == text;
    while rest != ""
      invariant IsLine(cur) && (rest != "" ==> text != "")
      invariant SplitFrom(lines, cur, rest) == Split(text)
      invariant EndAgrees(cur, rest, text)
      decreases |rest|
    {
      EndStep(cur, rest, text);
      if rest[0] == '\n' {
        SplitAtNewline(lines, cur, rest);
        lines := lines + [cur];
        cur := "";
      } else {
        SplitAtOther(lines, cur, rest);
        cur := cur + [rest[0]];
      }
      rest := rest[1..];
    }
    SplitAtEnd(lines, cur);
    trailingNewline := cur == "" && text != "";
    if cur != "" {
      lines := lines + [cur];
    }
  }

  /** The lines after the last item of a run: blank lines and comments up to a
      line that ends the run, or up to the end. */
  predicate RunEndsBefore(lines: seq<string>, blanks: nat) {
    && blanks <= |lines|
    && (forall k :: 0 <= k < blanks ==> IsBlankOrComment(lines[k]))
    && (blanks < |lines| ==> !IsItem(lines[blanks]) && !IsBlankOrComment(lines[blanks]))
  }

  lemma {:induction false} EndedRunIsForgotten(lines: seq<string>, blanks: nat, run: Option<nat>)
    requires RunEndsBefore(lines, blanks)
    ensures Repair(lines, run) == Repair(lines, None)
  {
    if blanks > 0 {
      BlankIsNotItem(lines[0]);
      EndedRunIsForgotten(lines[1..], blanks - 1, run);
    }
  }

  lemma {:induction false} RepairOfRun(lines: seq<string>, indent: nat, i: nat)
    requires i < |lines|
    requires forall k :: 0 <= k < |lines| ==> IsItem(lines[k]) || IsBlankOrComment(lines[k])
    ensures Repair(lines, Some(indent))[i] == if IsItem(lines[i]) then Reindent(lines[i], indent) else lines[i]
  {
    if i > 0 {
      RepairOfRun(lines[1..], indent, i - 1);
    }
  }

  /** The loop that extends a run; it returns the last item of the run that
      starts at `first`. */
  method ExtendRun(lines: seq<string>, first: nat) returns (lastItem: nat, ghost blanks: nat)
    requires first < |lines| && IsItem(lines[first])
    ensures first <= lastItem < |lines|
    ensures forall k :: first <= k <= lastItem ==> IsItem(lines[k]) || IsBlankOrComment(lines[k])
    ensures RunEndsBefore(lines[lastItem + 1..], blanks)
  {
    lastItem := first;
    var k := first + 1;
    while k < |lines|
      invariant first <= lastItem < k <= |lines|
      invariant forall j :: first <= j <= lastItem ==> IsItem(lines[j]) || IsBlankOrComment(lines[j])
      invariant forall j :: lastItem < j < k ==> IsBlankOrComment(lines[j])
    {
      var item, _ := SeqItem(lines[k]);
      if item {
        lastItem := k;
        k := k + 1;
      } else {
        var blank := BlankOrComment(lines[k]);
        if !blank {
          break;
        }
        k := k + 1;
      }
    }
    blanks := k - (lastItem + 1);
  }

  function AlignedLine(line: string, indent: nat): string {
    if IsItem(line) then Reindent(line, indent) else line
  }

  /** `after` is `before` with the items from `first` to before `end` at `indent`. */
  predicate Aligned(before: seq<string>, after: seq<string>, first: nat, end: nat, indent: nat) {
    && |after| == |before|
    && forall k :: 0 <= k < |before| ==>
      after[k] == if first <= k < end then AlignedLine(before[k], indent) else before[k]
  }

  lemma AlignedStep(before: seq<string>, now: seq<string>, next: seq<string>, first: nat, m: nat, indent: nat)
    requires Aligned(before, now, first, m, indent) && first <= m < |now|
    requires next == now[m := AlignedLine(now[m], indent)]
    ensures Aligned(before, next, first, m + 1, indent)
    ensures next != before <==> now != before || next[m] != now[m]
  {
    hide AlignedLine;
    if now != before {
      var k :| 0 <= k < |now| && now[k] != before[k];
      assert next[k] == now[k];
    } else if next[m] == now[m] {
      assert next == now;
    }
  }

  /** Force one line, if it is an item, to the indent of its run. */
  method AlignLine(lines: array<string>, m: nat, firstIndent: nat) returns (changed: bool)
    requires m < lines.Length
    modifies lines
    ensures lines[..] == old(lines[..])[m := AlignedLine(old(lines[m]), firstIndent)]
    ensures changed == (lines[m] != old(lines[m]))
  {
    var item, ind := SeqItem(lines[m]);
    ReindentToOwn(lines[m]);
    ReindentKeepsText(lines[m], firstIndent);
    changed := item && ind != firstIndent;
    if changed {
      lines[m] := Spaces(firstIndent) + Strip(lines[m]);
    }
  }

  /** Force every item of a run to the indent of the first. */
  method AlignRun(lines: array<string>, first: nat, lastItem: nat, firstIndent: nat) returns (didChange: bool)
    requires first <= lastItem < lines.Length
    modifies lines
    ensures Aligned(old(lines[..]), lines[..], first, lastItem + 1, firstIndent)
    ensures didChange == (lines[..] != old(lines[..]))
  {
    hide AlignedLine;
    didChange := false;
    ghost var before := lines[..];
    var m := first;
    while m <= lastItem
      invariant first <= m <= lastItem + 1
      invariant Aligned(before, lines[..], first, m, firstIndent)
      invariant didChange == (lines[..] != before)
    {
      ghost var now := lines[..];
      var changed := AlignLine(lines, m, firstIndent);
      AlignedStep(before, now, lines[..], first, m, firstIndent);
      didChange := didChange || changed;
      m := m + 1;
    }
  }

  lemma UnrepairedSuffix(lines: seq<string>, first: nat, lastItem: nat, blanks: nat)
    requires first <= lastItem < |lines| && IsItem(lines[first])
    requires RunEndsBefore(lines[lastItem + 1..], blanks)
    ensures Repair(lines[first..], None)
         == Repair(lines[first..lastItem + 1], Some(Indent(lines[first]))) + Repair(lines[lastItem + 1..], None)
  {
    var run, rest, indent := lines[first..lastItem + 1], lines[lastItem + 1..], Indent(lines[first]);
    CutAt(lines[first..], lastItem + 1 - first);
    assert lines[first..][..lastItem + 1 - first] == run && lines[first..][lastItem + 1 - first..] == rest;
    SameStart(run + rest);
    RepairOfConcat(run, rest, Some(indent));
    EndedRunIsForgotten(rest, blanks, RunAfter(run, Some(indent)));
  }

  lemma SameStart(lines: seq<string>)
    requires lines != [] && IsItem(lines[0])
    ensures Repair(lines, None) == Repair(lines, Some(Indent(lines[0])))
  {
  }

  lemma RunIsRepaired(before: seq<string>, after: seq<string>, first: nat, lastItem: nat, indent: nat)
    requires first <= lastItem < |before|
    requires forall k :: first <= k <= lastItem ==> IsItem(before[k]) || IsBlankOrComment(before[k])
    requires Aligned(before, after, first, lastItem + 1, indent)
    ensures after[first..lastItem + 1] == Repair(before[first..lastItem + 1], Some(indent))
    ensures after[..first] == before[..first] && after[lastItem + 1..] == before[lastItem + 1..]
  {
    hide IsItem, IsBlankOrComment, Indent, Reindent, Repair;
    var run := before[first..lastItem + 1];
    forall i | 0 <= i < |run| ensures after[first..lastItem + 1][i] == Repair(run, Some(indent))[i] {
      RepairOfRun(run, indent, i);
    }
  }

  /** One turn of the outer loop: a line that is no item, or a whole run. */
  method RepairFrom(lines: array<string>, i: nat) returns (next: nat, changed: bool)
    requires i < lines.Length
    modifies lines
    ensures i < next <= lines.Length
    ensures lines[..i] == old(lines[..i]) && lines[next..] == old(lines[next..])
    ensures lines[i..next] + Repair(lines[next..], None) == Repair(old(lines[i..]), None)
    ensures changed == (lines[..] != old(lines[..]))
  {
    var item, firstIndent := SeqItem(lines[i]);
    if !item {
      assert lines[i..][1..] == lines[i + 1..] && lines[i..i + 1] == [lines[i..][0]];
      return i + 1, false;
    }
    next, changed := RepairRun(lines, i, firstIndent);
  }

  /** The run that starts at `i`. */
  method RepairRun(lines: array<string>, i: nat, firstIndent: nat) returns (next: nat, changed: bool)
    requires i < lines.Length && IsItem(lines[i]) && firstIndent == Indent(lines[i])
    modifies lines
    ensures i < next <= lines.Length
    ensures lines[..i] == old(lines[..i]) && lines[next..] == old(lines[next..])
    ensures lines[i..next] + Repair(lines[next..], None) == Repair(old(lines[i..]), None)
    ensures changed == (lines[..] != old(lines[..]))
  {
    ghost var before := lines[..];
    var lastItem, blanks := ExtendRun(lines[..], i);
    changed := AlignRun(lines, i, lastItem, firstIndent);
    next := lastItem + 1;
    RunStep(before, lines[..], i, lastItem, blanks);
    assert lines[..][i..next] == lines[i..next] && lines[..][next..] == lines[next..];
    assert before[i..] == old(lines[i..]);
  }

  lemma RunStep(before: seq<string>, after: seq<string>, first: nat, lastItem: nat, blanks: nat)
    requires first <= lastItem < |before| && IsItem(before[first])
    requires forall k :: first <= k <= lastItem ==> IsItem(before[k]) || IsBlankOrComment(before[k])
    requires RunEndsBefore(before[lastItem + 1..], blanks)
    requires Aligned(before, after, first, lastItem + 1, Indent(before[first]))
    ensures after[first..lastItem + 1] + Repair(after[lastItem + 1..], None) == Repair(before[first..], None)
    ensures after[..first] == before[..first] && after[lastItem + 1..] == before[lastItem + 1..]
  {
    RunIsRepaired(before, after, first, lastItem, Indent(before[first]));
    UnrepairedSuffix(before, first, lastItem, blanks);
  }

  lemma RepairOfNothing()
    ensures Repair([], None) == []
  {
  }

  /** The loops of `repairSeqIndent` over the lines, in place. */
  method RepairLines(lines: array<string>) returns (didChange: bool)
    modifies lines
    ensures lines[..] == Repair(old(lines[..]), None)
    ensures didChange == (lines[..] != old(lines[..]))
  {
    hide Repair;
    RepairOfNothing();
    didChange := false;
    var i := 0;
    ghost var before := lines[..];
    assert lines[0..] == lines[..];
    while i < lines.Length
      invariant 0 <= i <= lines.Length
      invariant lines[i..] == before[i..]
      invariant lines[..i] + Repair(lines[i..], None) == Repair(before, None)
      invariant didChange == (lines[..] != before)
    {
      ghost var done, rest := lines[..i], lines[i..];
      ghost var middle := lines[..];
      var next, changed := RepairFrom(lines, i);
      assert lines[..next] == done + lines[i..next];
      assert lines[next..] == rest[next - i..] && before[next..] == before[i..][next - i..];
      Reassociate(done, lines[i..next], Repair(lines[next..], None));
      ChangesAdd(before, middle, lines[..], i);
      didChange := didChange || changed;
      i := next;
    }
  }

  lemma Reassociate(a: seq<string>, b: seq<string>, c: seq<string>)
    ensures (a + b) + c == a + (b + c)
  {
  }

  lemma ChangesAdd(before: seq<string>, middle: seq<string>, after: seq<string>, i: nat)
    requires i <= |before| == |middle| == |after|
    requires middle[i..] == before[i..] && after[..i] == middle[..i]
    ensures (after != before) == (middle != before || after != middle)
  {
    if middle != before && after == before {
      CutAt(middle, i);
      CutAt(before, i);
    }
  }

  lemma JoinStep(lines: seq<string>, trailing: bool, start: string)
    requires lines != []
    ensures start + JoinLines(lines, trailing)
         == (if |lines| > 1 || trailing then (start + lines[0]) + "\n" else start + lines[0])
            + JoinLines(lines[1..], trailing)
  {
  }

  /** The loop that puts the lines together again. */
  method PutTogether(lines: seq<string>, trailingNewline: bool) returns (out: string)
    ensures out == JoinLines(lines, trailingNewline)
  {
    out := "";
    var rest := lines;
    assert "" + JoinLines(lines, trailingNewline) == JoinLines(lines, trailingNewline);
    while rest != []
      invariant out + JoinLines(rest, trailingNewline) == JoinLines(lines, trailingNewline)
      decreases |rest|
    {
      JoinStep(rest, trailingNewline, out);
      out := out + rest[0];
      if |rest| > 1 || trailingNewline {
        out := out + "\n";
      }
      rest := rest[1..];
    }
    assert out + "" == out;
  }

  /** `repairSeqIndent`. */
  method RepairSeqIndent(text: string) returns (out: string, changed: bool)
    ensures out == RepairText(text) && changed == (out != text)
  {
    hide Split, Join, JoinLines, EndsLine, Repair;
    RepairedText(text);
    var split, trailingNewline := SplitLines(text);
    var lines := new string[|split|](i requires 0 <= i < |split| => split[i]);
    assert lines[..] == split;
    changed := RepairLines(lines);
    if !changed {
      JoinLinesOfSplit(text);
      return text, false;
    }
    out := PutTogether(lines[..], trailingNewline);
  }

  /** Everything the repair promises of the lines of a text. */
  lemma RepairIsConservative(text: string)
    ensures var before, after := Split(text), Split(RepairText(text));
            && |after| == |before| && EndsLine(RepairText(text)) == EndsLine(text)
            && (forall i :: 0 <= i < |before| ==> Strip(after[i]) == Strip(before[i]))
            && (forall i :: 0 <= i < |before| && !IsItem(before[i]) ==> after[i] == before[i])
            && (forall i :: 0 <= i < |before| && StartsRun(before, i) ==> after[i] == before[i])
            && (forall i, j :: 0 <= i < j < |before| && IsItem(before[i]) && IsItem(before[j]) && SameRun(before, i, j)
                  ==> Indent(after[i]) == Indent(after[j]))
  {
    var before, after := Split(text), Split(RepairText(text));
    RepairedText(text);
    forall i | 0 <= i < |before|
      ensures Strip(after[i]) == Strip(before[i]) && (!IsItem(before[i]) ==> after[i] == before[i]) {
      RepairKeepsText(before, None, i);
    }
    forall i | 0 <= i < |before| && StartsRun(before, i) ensures after[i] == before[i] {
      FirstItemStays(before, i);
    }
    forall i, j | 0 <= i < j < |before| && IsItem(before[i]) && IsItem(before[j]) && SameRun(before, i, j)
      ensures Indent(after[i]) == Indent(after[j]) {
      RunIsAligned(before, None, i, j);
    }
  }

  /** Any two items of one run have the same indent. */
  predicate Consistent(lines: seq<string>) {
    forall i, j :: 0 <= i < j < |lines| && IsItem(lines[i]) && IsItem(lines[j]) && SameRun(lines, i, j)
      ==> Indent(lines[i]) == Indent(lines[j])
  }

  /** The items that continue a run have its indent. */
  predicate Continues(lines: seq<string>, indent: nat) {
    forall j :: 0 <= j < |lines| && IsItem(lines[j]) && SameRun(lines, -1, j) ==> Indent(lines[j]) == indent
  }

  lemma {:induction false} ConsistentStays(lines: seq<string>, run: Option<nat>)
    requires Consistent(lines) && (run.Some? ==> Continues(lines, run.value))
    ensures Repair(lines, run) == lines
  {
    hide IsItem, IsBlankOrComment, Indent, Reindent;
    if lines != [] {
      var line, rest := lines[0], lines[1..];
      ConsistentRest(lines);
      if IsItem(line) {
        assert run.Some? ==> SameRun(lines, -1, 0);
        ReindentToOwn(line);
        ConsistentStays(rest, Some(Indent(line)));
      } else if IsBlankOrComment(line) {
        if run.Some? {
          ContinuesRest(lines, run.value);
        }
        ConsistentStays(rest, run);
      } else {
        ConsistentStays(rest, None);
      }
      assert lines == [line] + rest;
    }
  }

  lemma ConsistentRest(lines: seq<string>)
    requires lines != [] && Consistent(lines)
    ensures Consistent(lines[1..])
    ensures IsItem(lines[0]) ==> Continues(lines[1..], Indent(lines[0]))
  {
    hide IsItem, IsBlankOrComment, Indent;
    var rest := lines[1..];
    forall i, j | 0 <= i < j < |rest| && IsItem(rest[i]) && IsItem(rest[j]) && SameRun(rest, i, j)
      ensures Indent(rest[i]) == Indent(rest[j])
    {
      SameRunShifts(lines, i + 1, j + 1);
    }
    if IsItem(lines[0]) {
      forall j | 0 <= j < |rest| && IsItem(rest[j]) && SameRun(rest, -1, j)
        ensures Indent(rest[j]) == Indent(lines[0])
      {
        SameRunShifts(lines, 0, j + 1);
      }
    }
  }

  lemma ContinuesRest(lines: seq<string>, indent: nat)
    requires lines != [] && IsBlankOrComment(lines[0]) && Continues(lines, indent)
    ensures Continues(lines[1..], indent)
  {
    hide IsItem, IsBlankOrComment, Indent;
    var rest := lines[1..];
    forall j | 0 <= j < |rest| && IsItem(rest[j]) && SameRun(rest, -1, j)
      ensures Indent(rest[j]) == indent
    {
      SameRunShifts(lines, 0, j + 1);
    }
  }

  lemma SameRunShifts(lines: seq<string>, i: int, j: int)
    requires lines != [] && SameRun(lines[1..], i - 1, j - 1) && 0 <= i
    ensures SameRun(lines, i, j)
    ensures i == 0 && (IsItem(lines[0]) || IsBlankOrComment(lines[0])) ==> SameRun(lines, -1, j)
  {
    hide IsItem, IsBlankOrComment;
    assert forall k :: 1 <= k < |lines| ==> lines[k] == lines[1..][k - 1];
  }

  /** A text is returned as it is exactly when any two items of one run have the
      same indent. */
  lemma UnchangedExactly(text: string)
    ensures RepairText(text) == text <==> Consistent(Split(text))
  {
    hide RepairText, Split, Repair, IsItem, Indent, Strip, IsBlankOrComment, EndsLine;
    RepairedText(text);
    if RepairText(text) == text {
      RepairIsConservative(text);
    }
    if Consistent(Split(text)) {
      ConsistentStays(Split(text), None);
    }
  }

  /** A dash with white space or nothing after it starts an item exactly when
      nothing, a space or a tab follows: other white space does not count. */
  lemma DashItemExactly(indent: nat, after: string)
    requires after == "" || IsWhiteSpace(after[0])
    ensures IsItem(Spaces(indent) + ("-" + after)) <==> after == "" || after[0] == ' ' || after[0] == '\t'
  {
    var line := Spaces(indent) + ("-" + after);
    IndentOfSpaces(indent, "-" + after);
    assert Strip(line) == "-" + after;
  }

  /** Items that end in a carriage return are left where they are, although the
      same items without it are moved. */
  lemma CarriageReturnIsNoItem()
    ensures !IsItem("-\r")
    ensures RepairText("  -\r\n-\r\n") == "  -\r\n-\r\n"
    ensures RepairText("  -\n-\n") != "  -\n-\n"
  {
    hide IsItem, Split, RepairText, Indent;
    DashLines("\r", "  -\r\n-\r\n");
    assert "-" + "\r" == "-\r" && "-\r" in ["  -" + "\r", "-\r"];
    UnchangedExactly("  -\r\n-\r\n");
    var lines := ["  -" + "", "-" + ""];
    DashLines("", "  -\n-\n");
    UnchangedExactly("  -\n-\n");
    assert lines[0] in lines && lines[1] in lines && SameRun(lines, 0, 1);
  }

  /** The lines of two dashes, one of them indented, with `after` behind each. */
  lemma DashLines(after: string, text: string)
    requires IsLine(after) && (after == "" || IsWhiteSpace(after[0]))
    requires text == "  -" + (after + ("\n" + ("-" + (after + "\n"))))
    ensures Split(text) == ["  -" + after, "-" + after]
    ensures Indent("  -" + after) == 2 && Indent("-" + after) == 0
    ensures IsItem("  -" + after) == IsItem("-" + after) == (after == "" || after[0] == ' ' || after[0] == '\t')
  {
    hide IsItem, Split, Indent;
    var first, second := "  -" + after, "-" + after;
    assert text == first + ("\n" + (second + ("\n" + "")));
    SplitOfCut(first, second + ("\n" + ""));
    SplitOfCut(second, "");
    SplitOfNothing();
    assert Spaces(2) + ("-" + after) == first && Spaces(0) + ("-" + after) == second;
    DashItemExactly(2, after);
    DashItemExactly(0, after);
    IndentOfSpaces(2, "-" + after);
    IndentOfSpaces(0, "-" + after);
  }

  lemma SplitOfNothing()
    ensures Split("") == []
  {
  }

  /** In a repaired text two items end up at one indent if every line between them is
      an item, blank or a comment: `before` and `after` are its lines, and each
      `at` an indent as one can read it off the characters. */
  lemma ItemsAlign(text: string, i: nat, j: nat, atI: nat, atJ: nat)
    requires i < j < |Split(text)| && DashAt(Split(text)[i], atI) && DashAt(Split(text)[j], atJ)
    requires forall k :: i < k < j ==> exists n ::
      DashAt(Split(text)[k], n)
      || (BlankUpTo(Split(text)[k], n) && (n == |Split(text)[k]| || Split(text)[k][n] == '#'))
    ensures var after := Split(RepairText(text));
            && |after| == |Split(text)|
            && (exists n :: DashAt(after[i], n) && DashAt(after[j], n)
                  && after[i][n..] == Split(text)[i][atI..] && after[j][n..] == Split(text)[j][atJ..])
  {
    hide Split, RepairText, IsItem, IsBlankOrComment, Indent, DashAt;
    var before, after := Split(text), Split(RepairText(text));
    RepairIsConservative(text);
    ItemExactly(before[i], atI);
    ItemExactly(before[j], atJ);
    forall k | i < k < j ensures IsItem(before[k]) || IsBlankOrComment(before[k]) {
      BlankOrCommentExactly(before[k]);
      var n :| DashAt(before[k], n) || (BlankUpTo(before[k], n) && (n == |before[k]| || before[k][n] == '#'));
      ItemExactly(before[k], n);
    }
    assert SameRun(before, i, j);
    SameTextIsItem(before[i], after[i]);
    SameTextIsItem(before[j], after[j]);
    ItemExactly(after[i], Indent(after[i]));
    ItemExactly(after[j], Indent(after[j]));
    assert DashAt(after[i], Indent(after[i])) && DashAt(after[j], Indent(after[i]));
  }

  lemma SameTextIsItem(line: string, moved: string)
    requires Strip(moved) == Strip(line) && IsItem(line)
    ensures IsItem(moved)
  {
  }
}
