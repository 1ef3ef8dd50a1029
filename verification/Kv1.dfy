/** The KV1 text format of src/feats/appinfo_provision.cpp: the trees that are
    written, their text, and what a reader makes of any text. */
module Kv1 {
  import opened Common
  import opened Text

  // -------------------------------------------------------------------- trees

  /** A YAML node, as the provider's document is held. */
  datatype Node =
    | Null
    | Scalar(value: string)
    | Sequence(items: seq<Node>)
    | Map(entries: seq<Entry>)

  datatype Entry = Entry(key: string, node: Node)

  /** What KV1 can say: strings and ordered objects. */
  datatype Tree = Leaf(value: string) | Branch(members: seq<Member>)

  datatype Member = Member(key: string, tree: Tree)

  /** The tree that stands for a node: a sequence becomes an object keyed by its
      indices, and null becomes the empty string. */
  function Normalize(node: Node): Tree
    decreases node, 0
  {
    match node
    case Null => Leaf("")
    case Scalar(value) => Leaf(value)
    case Sequence(items) => Branch(NormalizeItems(items, 0))
    case Map(entries) => Branch(NormalizeEntries(entries))
  }

  function NormalizeEntries(entries: seq<Entry>): (members: seq<Member>)
    ensures |members| == |entries|
    decreases entries
  {
    if entries == [] then []
    else [Member(entries[0].key, Normalize(entries[0].node))] + NormalizeEntries(entries[1..])
  }

  /** An item that is neither a scalar nor a map becomes the empty string. */
  function NormalizeItem(item: Node): Tree
    decreases item, 1
  {
    if item.Sequence? then Leaf("") else Normalize(item)
  }

  function NormalizeItems(items: seq<Node>, index: nat): (members: seq<Member>)
    ensures |members| == |items|
    decreases items
  {
    if items == [] then []
    else [Member(Decimal(index), NormalizeItem(items[0]))] + NormalizeItems(items[1..], index + 1)
  }

  /** A sequence becomes an object keyed by its indices; an item of it that is null or a
      sequence itself becomes the empty string. */
  lemma {:induction false} ItemsExactly(items: seq<Node>, index: nat, i: nat)
    requires i < |items|
    ensures NormalizeItems(items, index)[i]
         == Member(Decimal(index + i),
                   match items[i]
                   case Null => Leaf("")
                   case Scalar(value) => Leaf(value)
                   case Sequence(_) => Leaf("")
                   case Map(entries) => Branch(NormalizeEntries(entries)))
  {
    if i > 0 {
      ItemsExactly(items[1..], index + 1, i - 1);
    } else {
      assert NormalizeItems(items, index)[0] == Member(Decimal(index), NormalizeItem(items[0]));
      assert items[0].Sequence? || NormalizeItem(items[0]) == Normalize(items[0]);
    }
  }

  lemma {:induction false} EntriesExactly(entries: seq<Entry>, i: nat)
    requires i < |entries|
    ensures NormalizeEntries(entries)[i]
         == Member(entries[i].key,
                   match entries[i].node
                   case Null => Leaf("")
                   case Scalar(value) => Leaf(value)
                   case Sequence(items) => Branch(NormalizeItems(items, 0))
                   case Map(inner) => Branch(NormalizeEntries(inner)))
  {
    if i > 0 {
      EntriesExactly(entries[1..], i - 1);
    }
  }

  // --------------------------------------------------------------------- text

  predicate NeedsEscape(c: char) { c == '\\' || c == '"' }

  function Escape(s: string): string {
    if s == "" then "" else (if NeedsEscape(s[0]) then "\\" else "") + [s[0]] + Escape(s[1..])
  }

  lemma EscapeStep(s: string)
    requires s != ""
    ensures Escape(s) == if NeedsEscape(s[0]) then "\\" + ([s[0]] + Escape(s[1..])) else [s[0]] + Escape(s[1..])
  {
  }

  lemma EscapeOfNothing()
    ensures Escape("") == ""
  {
  }

  function Quoted(s: string): string { "\"" + Escape(s) + "\"" }

  function Tabs(n: nat): (s: string)
    ensures |s| == n && forall i :: 0 <= i < n ==> s[i] == '\t'
  {
    seq(n, _ => '\t')
  }

  function Write(members: seq<Member>, depth: nat): string
    decreases members
  {
    if members == [] then ""
    else WriteMember(members[0], depth) + Write(members[1..], depth)
  }

  function WriteMember(member: Member, depth: nat): string
    decreases member
  {
    Tabs(depth) + Quoted(member.key) + WriteTree(member.tree, depth)
  }

  function WriteTree(tree: Tree, depth: nat): string
    decreases tree
  {
    match tree
    case Leaf(value) => "\t\t" + Quoted(value) + "\n"
    case Branch(members) => "\n" + Tabs(depth) + "{\n" + Write(members, depth + 1) + Tabs(depth) + "}\n"
  }

  /** The wire document around a body. */
  function Wire(body: seq<Member>): string {
    "\"appinfo\"\n{\n" + Write(body, 1) + "}\n"
  }

  // ------------------------------------------------------------------- reading

  datatype Token = Text(text: string) | OpenBrace | CloseBrace | End

  predicate IsSpace(c: char) { c == ' ' || c == '\t' || c == '\r' || c == '\n' }

  predicate StopsBare(c: char) { IsSpace(c) || c == '{' || c == '}' || c == '"' }

  /** What is left from the next newline on. */
  function SkipLine(s: string): (rest: string)
    ensures |rest| <= |s| && (s != "" && s[0] != '\n' ==> |rest| < |s|)
  {
    if s == "" || s[0] == '\n' then s else SkipLine(s[1..])
  }

  predicate StartsComment(s: string) { |s| > 1 && s[0] == '/' && s[1] == '/' }

  /** What is left after white space and comments. */
  function SkipBlank(s: string): (rest: string)
    ensures |rest| <= |s|
    ensures rest != "" ==> !IsSpace(rest[0]) && !StartsComment(rest)
    decreases |s|
  {
    if s != "" && IsSpace(s[0]) then SkipBlank(s[1..])
    else if StartsComment(s) then SkipBlank(SkipLine(s))
    else s
  }

  function Unescaped(e: char): char {
    if e == 'n' then '\n' else if e == 't' then '\t' else if e == 'r' then '\r' else e
  }

  /** The text up to the closing quote and what follows it; none without one. */
  function Unquote(s: string): (r: Option<(string, string)>)
    ensures r.Some? ==> |r.value.1| < |s|
    decreases |s|
  {
    if s == "" then None
    else if s[0] == '"' then Some(("", s[1..]))
    else if s[0] == '\\' && |s| > 1 then
      var r :- Unquote(s[2..]);
      Some(([Unescaped(s[1])] + r.0, r.1))
    else
      var r :- Unquote(s[1..]);
      Some(([s[0]] + r.0, r.1))
  }

  /** An unquoted word and what follows it. */
  function Bare(s: string): (r: (string, string))
    ensures r.0 + r.1 == s
    ensures s != "" && !StopsBare(s[0]) ==> r.0 != ""
  {
    if s == "" || StopsBare(s[0]) then ("", s)
    else
      var r := Bare(s[1..]);
      ([s[0]] + r.0, r.1)
  }

  /** The next token and what follows it. */
  function Next(s: string): (r: (Token, string))
    ensures |r.1| <= |s|
    ensures r.0 != End ==> |r.1| < |s|
  {
    var t := SkipBlank(s);
    if t == "" then (End, "")
    else if t[0] == '{' then (OpenBrace, t[1..])
    else if t[0] == '}' then (CloseBrace, t[1..])
    else if t[0] == '"' then
      var quoted := Unquote(t[1..]);
      if quoted.None? then (End, "") else (Text(quoted.value.0), quoted.value.1)
    else
      var word := Bare(t);
      assert |t| == |word.0| + |word.1|;
      (Text(word.0), word.1)
  }

  /** `node[key] = value`: the first member of that key is overwritten, or a new
      one goes to the end. */
  function Put(members: seq<Member>, key: string, tree: Tree): seq<Member> {
    if members == [] then [Member(key, tree)]
    else if members[0].key == key then [Member(key, tree)] + members[1..]
    else [members[0]] + Put(members[1..], key, tree)
  }

  /** The members of an object whose brace is already read, added to `found`,
      and what follows the object. */
  function ReadMembers(found: seq<Member>, s: string): (r: (seq<Member>, string))
    ensures |r.1| <= |s|
    decreases |s|, 1
  {
    var key := Next(s);
    if !key.0.Text? then (found, key.1)
    else
      var value := ReadValue(key.1);
      if value.None? then (found, Next(key.1).1)
      else ReadMembers(Put(found, key.0.text, value.value.0), value.value.1)
  }

  /** A string or an object, and what follows it. */
  function ReadValue(s: string): (r: Option<(Tree, string)>)
    ensures r.Some? ==> |r.value.1| < |s|
    decreases |s|, 0
  {
    var value := Next(s);
    if value.0.Text? then Some((Leaf(value.0.text), value.1))
    else if value.0.OpenBrace? then
      var inner := ReadMembers([], value.1);
      Some((Branch(inner.0), inner.1))
    else None
  }

  /** The body of the top-level object, if there is one. */
  function ReadWire(s: string): Option<seq<Member>> {
    var key := Next(s);
    if !key.0.Text? then None
    else
      var brace := Next(key.1);
      if !brace.0.OpenBrace? then None else Some(ReadMembers([], brace.1).0)
  }

  // ---------------------------------------------------------- reading the text back

  /** A tree in which every key of an object holds the last value it was given,
      at its first position. */
  function Collapse(tree: Tree): Tree
    decreases tree, 0
  {
    match tree
    case Leaf(value) => tree
    case Branch(members) => Branch(PutAll([], members))
  }

  function PutAll(found: seq<Member>, members: seq<Member>): seq<Member>
    decreases members
  {
    if members == [] then found
    else PutAll(Put(found, members[0].key, Collapse(members[0].tree)), members[1..])
  }

  predicate AllSpace(w: string) {
    forall i :: 0 <= i < |w| ==> IsSpace(w[i])
  }

  lemma {:induction false} SkipLeadingSpace(w: string, s: string)
    requires AllSpace(w)
    ensures SkipBlank(w + s) == SkipBlank(s)
  {
    if w == "" {
      assert w + s == s;
    } else {
      assert (w + s)[1..] == w[1..] + s;
      SkipLeadingSpace(w[1..], s);
    }
  }

  lemma AssociateFour(x: string, y: string, z: string, w: string)
    ensures (x + (y + z)) + w == x + (y + (z + w)) && (y + z) + w == y + (z + w)
  {
  }

  /** An escaped string, cut after its first character. */
  lemma EscapeCut(value: string, tail: string)
    requires value != ""
    ensures var more := Escape(value[1..]) + tail;
            Escape(value) + tail == if NeedsEscape(value[0]) then "\\" + ([value[0]] + more) else [value[0]] + more
  {
    hide Escape;
    EscapeStep(value);
    AssociateFour("\\", [value[0]], Escape(value[1..]), tail);
  }

  /** One escaped character, read back. */
  lemma UnquoteStep(c: char, more: string, value: string, rest: string, s: string)
    requires s == if NeedsEscape(c) then "\\" + ([c] + more) else [c] + more
    requires Unquote(more) == Some((value, rest))
    ensures Unquote(s) == Some(([c] + value, rest))
  {
    if NeedsEscape(c) {
      assert s[2..] == more;
    } else {
      assert s[1..] == more;
    }
  }

  lemma UnquoteEnds(rest: string)
    ensures Unquote("\"" + rest) == Some(("", rest))
  {
    assert ("\"" + rest)[1..] == rest;
  }

  lemma {:induction false} UnquoteOfEscape(value: string, rest: string, s: string)
    requires s == Escape(value) + ("\"" + rest)
    ensures Unquote(s) == Some((value, rest))
  {
    hide Escape, Unquote, NeedsEscape;
    if value == "" {
      EscapeOfNothing();
      NothingBefore("\"" + rest);
      UnquoteEnds(rest);
    } else {
      var tail := "\"" + rest;
      var more := Escape(value[1..]) + tail;
      UnquoteOfEscape(value[1..], rest, more);
      EscapeCut(value, tail);
      UnquoteStep(value[0], more, value[1..], rest, s);
      HeadAndTail(value);
    }
  }

  lemma NothingBefore(s: string)
    ensures "" + s == s
  {
  }

  lemma HeadAndTail(s: string)
    requires s != ""
    ensures [s[0]] + s[1..] == s
  {
  }

  lemma NextOfQuoted(w: string, value: string, rest: string, s: string)
    requires AllSpace(w) && s == w + (Quoted(value) + rest)
    ensures Next(s) == (Text(value), rest)
  {
    hide SkipBlank, Unquote, Quoted, Escape, AllSpace;
    var t := Quoted(value) + rest;
    SkipLeadingSpace(w, t);
    QuotedTail(value, rest, t);
    QuoteStops(t);
    UnquoteOfEscape(value, rest, t[1..]);
  }

  lemma QuotedTail(value: string, rest: string, t: string)
    requires t == Quoted(value) + rest
    ensures t != "" && t[0] == '"' && t[1..] == Escape(value) + ("\"" + rest)
  {
    hide Escape;
  }

  lemma QuoteStops(t: string)
    requires t != "" && t[0] == '"'
    ensures SkipBlank(t) == t
  {
  }

  lemma NextOfBrace(w: string, brace: char, rest: string, s: string)
    requires AllSpace(w) && (brace == '{' || brace == '}') && s == w + ([brace] + rest)
    ensures Next(s) == (if brace == '{' then OpenBrace else CloseBrace, rest)
  {
    SkipLeadingSpace(w, [brace] + rest);
  }

  lemma ReadAfterNewline(found: seq<Member>, s: string)
    ensures ReadMembers(found, "\n" + s) == ReadMembers(found, s)
  {
    SkipLeadingSpace("\n", s);
  }

  lemma LeafLayout(value: string, depth: nat, rest: string)
    ensures WriteTree(Leaf(value), depth) + rest == "\t\t" + (Quoted(value) + ("\n" + rest))
  {
  }

  /** The text of an object, cut where its tokens end. */
  lemma BranchLayout(members: seq<Member>, depth: nat, rest: string)
    ensures WriteTree(Branch(members), depth) + rest
         == ("\n" + Tabs(depth)) + ("{" + ("\n" + (Write(members, depth + 1)
                                                  + (Tabs(depth) + ("}" + ("\n" + rest))))))
  {
    var body, tabs := Write(members, depth + 1), Tabs(depth);
    calc {
      WriteTree(Branch(members), depth) + rest;
      ("\n" + tabs + "{\n" + body + tabs + "}\n") + rest;
      ("\n" + tabs + "{\n" + body) + (tabs + ("}" + ("\n" + rest)));
      ("\n" + tabs + "{\n") + (body + (tabs + ("}" + ("\n" + rest))));
    }
  }

  lemma MemberLayout(member: Member, depth: nat, rest: string)
    ensures WriteMember(member, depth) + rest
         == Tabs(depth) + (Quoted(member.key) + (WriteTree(member.tree, depth) + rest))
  {
    var q, w := Quoted(member.key), WriteTree(member.tree, depth);
    assert (Tabs(depth) + q + w) + rest == Tabs(depth) + (q + (w + rest));
  }

  lemma WriteLayout(members: seq<Member>, depth: nat, tail: string)
    requires members != []
    ensures Write(members, depth) + tail
         == WriteMember(members[0], depth) + (Write(members[1..], depth) + tail)
  {
  }

  lemma {:induction false} ReadValueOfWrite(tree: Tree, depth: nat, rest: string)
    ensures ReadValue(WriteTree(tree, depth) + rest) == Some((Collapse(tree), "\n" + rest))
    decreases tree, 0
  {
    var s := WriteTree(tree, depth) + rest;
    match tree
    case Leaf(value) =>
      LeafLayout(value, depth, rest);
      NextOfQuoted("\t\t", value, "\n" + rest, s);
    case Branch(members) =>
      var tail := Tabs(depth) + ("}" + ("\n" + rest));
      var inner := Write(members, depth + 1) + tail;
      BranchLayout(members, depth, rest);
      NextOfBrace("\n" + Tabs(depth), '{', "\n" + inner, s);
      NextOfBrace(Tabs(depth), '}', "\n" + rest, tail);
      ReadAfterNewline([], inner);
      ReadMembersOfWrite([], members, depth + 1, tail, inner);
  }

  lemma {:induction false} ReadMembersOfWrite(found: seq<Member>, members: seq<Member>, depth: nat,
                                              tail: string, s: string)
    requires s == Write(members, depth) + tail
    ensures ReadMembers(found, s) == ReadMembers(PutAll(found, members), tail)
    decreases members
  {
    if members == [] {
      assert s == tail;
    } else {
      var rest := Write(members[1..], depth) + tail;
      var tree := members[0].tree;
      var value := WriteTree(tree, depth) + rest;
      var next := Put(found, members[0].key, Collapse(tree));
      WriteLayout(members, depth, tail);
      MemberLayout(members[0], depth, rest);
      NextOfQuoted(Tabs(depth), members[0].key, value, s);
      ReadValueOfWrite(tree, depth, rest);
      ReadAfterNewline(next, rest);
      ReadMembersOfWrite(next, members[1..], depth, tail, rest);
    }
  }

  lemma WireLayout(text: string)
    ensures "\"appinfo\"\n{\n" + text + "}\n"
         == "" + (Quoted("appinfo") + ("\n" + ("{" + ("\n" + (text + "}\n")))))
  {
    hide Quoted;
    AppinfoKey();
    var tail := text + "}\n";
    assert "\"appinfo\"\n{\n" == "\"appinfo\"" + "\n{\n";
    AssociateFour("", "\"appinfo\"", "\n{\n", tail);
    AssociateFour("", "\n{\n", text, "}\n");
    BraceLayout(tail);
  }

  lemma AppinfoKey()
    ensures Quoted("appinfo") == "\"appinfo\""
  {
    assert Escape("appinfo") == "appinfo";
  }

  lemma BraceLayout(tail: string)
    ensures "\n{\n" + tail == "\n" + ("{" + ("\n" + tail))
  {
  }

  /** Reading a written document gives back its body, keys given twice aside. */
  lemma WireReadsBack(body: seq<Member>)
    ensures ReadWire(Wire(body)) == Some(PutAll([], body))
  {
    var text := Write(body, 1) + "}\n";
    WireLayout(Write(body, 1));
    NextOfQuoted("", "appinfo", "\n" + ("{" + ("\n" + text)), Wire(body));
    NextOfBrace("\n", '{', "\n" + text, "\n" + ("{" + ("\n" + text)));
    ReadAfterNewline([], text);
    NextOfBrace("", '}', "\n", "}\n");
    ReadMembersOfWrite([], body, 1, "}\n", text);
  }

  /** Whatever comes where another member or the closing brace is due, the members
      before it are kept: a brace, the end or a key without a value ends the object. */
  lemma DamagedKeepsMembers(members: seq<Member>, depth: nat, tail: string)
    ensures var r, token := ReadMembers([], Write(members, depth) + tail), Next(tail);
      && (!token.0.Text? ==> r == (PutAll([], members), token.1))
      && (token.0.Text? && Next(token.1).0 in [CloseBrace, End] ==> r == (PutAll([], members), Next(token.1).1))
  {
    hide Write, Next;
    ReadMembersOfWrite([], members, depth, tail, Write(members, depth) + tail);
  }

  // ------------------------------------------------------------ the text, spelled out

  /** Text without quotes and backslashes is written as it is. */
  lemma {:induction false} PlainIsWritten(s: string)
    requires forall i :: 0 <= i < |s| ==> s[i] != '"' && s[i] != '\\'
    ensures Quoted(s) == "\"" + s + "\"" && Escape(s) == s
  {
    if s != "" {
      PlainIsWritten(s[1..]);
      EscapeStep(s);
      assert [s[0]] + s[1..] == s;
    }
  }

  /** A quote or a backslash is written with a backslash before it. */
  lemma SpecialIsEscaped(c: char, s: string)
    requires c == '"' || c == '\\'
    ensures Escape([c] + s) == "\\" + ([c] + Escape(s))
  {
    assert ([c] + s)[1..] == s;
    EscapeStep([c] + s);
  }

  /** A backslash makes `n`, `t` and `r` a newline, a tab and a return; any other
      character stands for itself. */
  lemma EscapeIsRead(e: char, s: string, value: string, rest: string)
    requires Unquote(s) == Some((value, rest))
    ensures Unquote("\\" + ([e] + s))
         == Some(([if e == 'n' then '\n' else if e == 't' then '\t' else if e == 'r' then '\r' else e] + value, rest))
  {
    assert ("\\" + ([e] + s))[2..] == s;
  }

  /** White space before a token does not count. */
  lemma BlankIsSkipped(c: char, s: string)
    requires c == ' ' || c == '\t' || c == '\r' || c == '\n'
    ensures SkipBlank([c] + s) == SkipBlank(s) && Next([c] + s) == Next(s)
  {
    hide Unquote, Bare;
    assert ([c] + s)[1..] == s;
  }

  /** A comment up to the end of its line does not count. */
  lemma CommentIsSkipped(line: string, s: string)
    requires IsLine(line)
    ensures Next("//" + (line + ("\n" + s))) == Next(s)
  {
    hide Unquote, Bare;
    var t := line + ("\n" + s);
    var text := "//" + t;
    LineIsSkipped(line, "\n" + s);
    assert text[1..][1..] == t;
    assert SkipLine(text) == SkipLine(text[1..]) == SkipLine(t) == "\n" + s;
    assert StartsComment(text) && SkipBlank(text) == SkipBlank("\n" + s);
    BlankIsSkipped('\n', s);
    assert ['\n'] + s == "\n" + s;
  }

  lemma {:induction false} LineIsSkipped(line: string, s: string)
    requires IsLine(line) && s != "" && s[0] == '\n'
    ensures SkipLine(line + s) == s
  {
    if line == "" {
      assert line + s == s;
    } else {
      assert (line + s)[1..] == line[1..] + s;
      LineIsSkipped(line[1..], s);
    }
  }

  /** A bare word ends at a blank, a brace, a quote or the end, and nowhere else. */
  lemma {:induction false} BareExactly(word: string, s: string)
    requires forall i :: 0 <= i < |word| ==> word[i] !in [' ', '\t', '\r', '\n', '{', '}', '"']
    requires s == "" || s[0] in [' ', '\t', '\r', '\n', '{', '}', '"']
    ensures Bare(word + s) == (word, s)
  {
    if word == "" {
      assert word + s == s;
    } else {
      assert (word + s)[1..] == word[1..] + s;
      BareExactly(word[1..], s);
      assert [word[0]] + word[1..] == word;
    }
  }

  /** The layout of a document: keys and braces on lines of their own, indented by
      tabs, and two tabs before a value. */
  lemma WireExample(key: string, name: string, value: string)
    ensures Wire([Member(key, Branch([Member(name, Leaf(value))]))])
         == "\"appinfo\"\n{\n"
            + ("\t" + Quoted(key) + "\n" + "\t" + "{\n"
               + ("\t\t" + Quoted(name) + "\t\t" + Quoted(value) + "\n")
               + "\t" + "}\n")
            + "}\n"
  {
    hide Quoted;
    var inner := [Member(name, Leaf(value))];
    var outer := [Member(key, Branch(inner))];
    assert Tabs(1) == "\t" && Tabs(2) == "\t\t";
    assert inner[1..] == [] && outer[1..] == [];
    LastMember(inner[0], 2);
    LastMember(outer[0], 1);
  }

  lemma LastMember(member: Member, depth: nat)
    ensures Write([member], depth) == WriteMember(member, depth)
  {
    hide WriteMember;
    assert [member][1..] == [];
    assert WriteMember(member, depth) + "" == WriteMember(member, depth);
  }

  // -------------------------------------------------------------- distinct keys

  predicate HasKey(members: seq<Member>, key: string) {
    members != [] && (members[0].key == key || HasKey(members[1..], key))
  }

  /** No object of the tree has two members of the same key. */
  predicate Distinct(tree: Tree)
    decreases tree, 0
  {
    tree.Branch? ==> DistinctMembers(tree.members)
  }

  predicate DistinctMembers(members: seq<Member>)
    decreases members
  {
    members != [] ==>
      && !HasKey(members[1..], members[0].key)
      && Distinct(members[0].tree)
      && DistinctMembers(members[1..])
  }

  lemma {:induction false} KeysOfPut(members: seq<Member>, key: string, tree: Tree, k: string)
    ensures HasKey(Put(members, key, tree), k) <==> HasKey(members, k) || k == key
  {
    if members != [] && members[0].key != key {
      KeysOfPut(members[1..], key, tree, k);
    }
  }

  lemma {:induction false} PutIsDistinct(members: seq<Member>, key: string, tree: Tree)
    requires DistinctMembers(members) && Distinct(tree)
    ensures DistinctMembers(Put(members, key, tree))
  {
    if members != [] && members[0].key != key {
      KeysOfPut(members[1..], key, tree, members[0].key);
      PutIsDistinct(members[1..], key, tree);
    }
  }

  lemma {:induction false} CollapseIsDistinct(tree: Tree)
    ensures Distinct(Collapse(tree))
    decreases tree, 0
  {
    if tree.Branch? {
      PutAllIsDistinct([], tree.members);
    }
  }

  lemma {:induction false} PutAllIsDistinct(found: seq<Member>, members: seq<Member>)
    requires DistinctMembers(found)
    ensures DistinctMembers(PutAll(found, members))
    decreases members
  {
    if members != [] {
      var tree := Collapse(members[0].tree);
      CollapseIsDistinct(members[0].tree);
      PutIsDistinct(found, members[0].key, tree);
      PutAllIsDistinct(Put(found, members[0].key, tree), members[1..]);
    }
  }

  lemma {:induction false} PutOfNewKey(members: seq<Member>, key: string, tree: Tree)
    requires !HasKey(members, key)
    ensures Put(members, key, tree) == members + [Member(key, tree)]
  {
    if members != [] {
      PutOfNewKey(members[1..], key, tree);
      assert members + [Member(key, tree)] == [members[0]] + (members[1..] + [Member(key, tree)]);
    }
  }

  lemma {:induction false} KeyOfMember(members: seq<Member>, i: nat)
    requires i < |members|
    ensures HasKey(members, members[i].key)
  {
    if i > 0 {
      KeyOfMember(members[1..], i - 1);
    }
  }

  lemma {:induction false} CollapseOfDistinct(tree: Tree)
    requires Distinct(tree)
    ensures Collapse(tree) == tree
    decreases tree, 0
  {
    if tree.Branch? {
      PutAllOfDistinct([], tree.members);
      assert [] + tree.members == tree.members;
    }
  }

  lemma {:induction false} PutAllOfDistinct(found: seq<Member>, members: seq<Member>)
    requires DistinctMembers(members)
    requires forall i :: 0 <= i < |members| ==> !HasKey(found, members[i].key)
    ensures PutAll(found, members) == found + members
    decreases members
  {
    if members == [] {
      assert found + members == found;
    } else {
      var first, rest := members[0], members[1..];
      var next := found + [first];
      CollapseOfDistinct(first.tree);
      PutOfNewKey(found, first.key, first.tree);
      forall i | 0 <= i < |rest| ensures !HasKey(next, rest[i].key) {
        KeyOfMember(rest, i);
        KeysOfPut(found, first.key, first.tree, rest[i].key);
        assert rest[i] == members[i + 1];
      }
      PutAllOfDistinct(next, rest);
      assert next + rest == found + members;
    }
  }

  /** Reading back changes nothing exactly when no object has a key twice. */
  lemma ReadsBackExactly(body: seq<Member>)
    ensures ReadWire(Wire(body)) == Some(body) <==> DistinctMembers(body)
  {
    WireReadsBack(body);
    PutAllIsDistinct([], body);
    if DistinctMembers(body) {
      PutAllOfDistinct([], body);
      assert [] + body == body;
    }
  }

  /** A repeated key is read back once, with its last value. */
  lemma RepeatedKeyIsLost(key: string, first: string, second: string)
    ensures ReadWire(Wire([Member(key, Leaf(first)), Member(key, Leaf(second))])) == Some([Member(key, Leaf(second))])
  {
    var body := [Member(key, Leaf(first)), Member(key, Leaf(second))];
    WireReadsBack(body);
    assert body[1..] == [Member(key, Leaf(second))];
    assert PutAll([], body) == PutAll([Member(key, Leaf(first))], body[1..]);
    assert PutAll([Member(key, Leaf(first))], body[1..]) == PutAll([Member(key, Leaf(second))], body[1..][1..]);
  }

  /** What YAML asks of a node: the keys of every map are distinct. */
  predicate DistinctNode(node: Node)
    decreases node, 0
  {
    match node
    case Map(entries) => DistinctEntries(entries)
    case Sequence(items) => forall i :: 0 <= i < |items| ==> items[i].Map? ==> DistinctNode(items[i])
    case _ => true
  }

  predicate DistinctEntries(entries: seq<Entry>)
    decreases entries
  {
    && (forall i, j :: 0 <= i < j < |entries| ==> entries[i].key != entries[j].key)
    && (forall i :: 0 <= i < |entries| ==> DistinctNode(entries[i].node))
  }

  lemma {:induction false} KeysOfEntries(entries: seq<Entry>, key: string)
    requires forall i :: 0 <= i < |entries| ==> entries[i].key != key
    ensures !HasKey(NormalizeEntries(entries), key)
  {
    if entries != [] {
      KeysOfEntries(entries[1..], key);
    }
  }

  lemma {:induction false} KeysOfItems(items: seq<Node>, index: nat, earlier: nat)
    requires earlier < index
    ensures !HasKey(NormalizeItems(items, index), Decimal(earlier))
  {
    if items != [] {
      KeysOfItems(items[1..], index + 1, earlier);
      DecimalReadsBack(index);
      DecimalReadsBack(earlier);
    }
  }

  lemma {:induction false} NormalizedIsDistinct(node: Node)
    requires DistinctNode(node)
    ensures Distinct(Normalize(node))
    decreases node, 0
  {
    match node
    case Map(entries) => EntriesAreDistinct(entries);
    case Sequence(items) => ItemsAreDistinct(items, 0);
    case _ =>
  }

  lemma {:induction false} EntriesAreDistinct(entries: seq<Entry>)
    requires DistinctEntries(entries)
    ensures DistinctMembers(NormalizeEntries(entries))
    decreases entries
  {
    if entries != [] {
      KeysOfEntries(entries[1..], entries[0].key);
      NormalizedIsDistinct(entries[0].node);
      EntriesAreDistinct(entries[1..]);
    }
  }

  lemma {:induction false} ItemsAreDistinct(items: seq<Node>, index: nat)
    requires forall i :: 0 <= i < |items| ==> items[i].Map? ==> DistinctNode(items[i])
    ensures DistinctMembers(NormalizeItems(items, index))
    decreases items
  {
    if items != [] {
      KeysOfItems(items[1..], index + 1, index);
      if items[0].Map? {
        NormalizedIsDistinct(items[0]);
      } else {
        assert NormalizeItem(items[0]).Leaf?;
      }
      ItemsAreDistinct(items[1..], index + 1);
    }
  }

  /** The body of the document: a body that is not a map is written as an empty one. */
  function Body(node: Node): seq<Member> {
    if node.Map? then NormalizeEntries(node.entries) else []
  }

  /** Writing any node and reading the text gives back its normalized body. */
  lemma NodeReadsBack(node: Node)
    requires DistinctNode(node)
    ensures ReadWire(Wire(Body(node))) == Some(Body(node))
  {
    if node.Map? {
      EntriesAreDistinct(node.entries);
    }
    ReadsBackExactly(Body(node));
  }

  // ------------------------------------------------------------------ the writer

  /** The `std::string` a document is appended to. */
  class TextBuffer {
    var text: string

    constructor ()
      ensures text == ""
    {
      text := "";
    }

    method Append(s: string)
      modifies this
      ensures text == old(text) + s
    {
      text := text + s;
    }
  }

  lemma QuotedText(start: string, s: string)
    ensures (start + "\"" + Escape(s)) + "\"" == start + Quoted(s)
  {
  }

  /** One turn of the loop: a character moves from the string to the text. */
  lemma EscapedStep(text: string, s: string)
    requires s != ""
    ensures NeedsEscape(s[0]) ==> ((text + "\\") + [s[0]]) + Escape(s[1..]) == text + Escape(s)
    ensures !NeedsEscape(s[0]) ==> (text + [s[0]]) + Escape(s[1..]) == text + Escape(s)
  {
    hide Escape, NeedsEscape;
    EscapeStep(s);
  }

  /** `emitEscaped`. */
  method EmitEscaped(out: TextBuffer, s: string)
    modifies out
    ensures out.text == old(out.text) + Quoted(s)
  {
    hide Escape, NeedsEscape, Quoted;
    out.Append("\"");
    var rest := s;
    while rest != ""
      invariant out.text + Escape(rest) == old(out.text) + "\"" + Escape(s)
      decreases |rest|
    {
      EscapedStep(out.text, rest);
      if NeedsEscape(rest[0]) {
        out.Append("\\");
      }
      out.Append([rest[0]]);
      rest := rest[1..];
    }
    EscapeOfNothing();
    assert out.text + "" == out.text;
    QuotedText(old(out.text), s);
    out.Append("\"");
  }

  /** The key and tabs that start a line. */
  method EmitKey(out: TextBuffer, key: string, depth: nat)
    modifies out
    ensures out.text == old(out.text) + (Tabs(depth) + Quoted(key))
  {
    out.Append(Tabs(depth));
    EmitEscaped(out, key);
  }

  method EmitString(out: TextBuffer, value: string, depth: nat)
    modifies out
    ensures out.text == old(out.text) + WriteTree(Leaf(value), depth)
  {
    out.Append("\t\t");
    EmitEscaped(out, value);
    out.Append("\n");
  }

  method OpenBlock(out: TextBuffer, depth: nat)
    modifies out
    ensures out.text == old(out.text) + ("\n" + Tabs(depth) + "{\n")
  {
    out.Append("\n");
    out.Append(Tabs(depth));
    out.Append("{\n");
  }

  method CloseBlock(out: TextBuffer, depth: nat)
    modifies out
    ensures out.text == old(out.text) + (Tabs(depth) + "}\n")
  {
    out.Append(Tabs(depth));
    out.Append("}\n");
  }

  lemma BlockText(start: string, members: seq<Member>, depth: nat)
    ensures ((start + ("\n" + Tabs(depth) + "{\n")) + Write(members, depth + 1)) + (Tabs(depth) + "}\n")
         == start + WriteTree(Branch(members), depth)
  {
  }

  lemma WriteStep(start: string, members: seq<Member>, depth: nat)
    requires members != []
    ensures ((start + (Tabs(depth) + Quoted(members[0].key))) + WriteTree(members[0].tree, depth))
            + Write(members[1..], depth)
         == start + Write(members, depth)
  {
  }

  /** What `emitMap` appends after a key. */
  method EmitValue(out: TextBuffer, node: Node, depth: nat)
    modifies out
    ensures out.text == old(out.text) + WriteTree(Normalize(node), depth)
    decreases node, 1
  {
    match node
    case Map(entries) =>
      BlockText(out.text, NormalizeEntries(entries), depth);
      OpenBlock(out, depth);
      EmitNode(out, node, depth + 1);
      CloseBlock(out, depth);
    case Scalar(value) =>
      EmitString(out, value, depth);
    case Sequence(items) =>
      BlockText(out.text, NormalizeItems(items, 0), depth);
      OpenBlock(out, depth);
      EmitItems(out, items, depth + 1);
      CloseBlock(out, depth);
    case Null =>
      EmitString(out, "", depth);
  }

  /** The loop of `emitMap` over a sequence. */
  method EmitItems(out: TextBuffer, items: seq<Node>, depth: nat)
    modifies out
    ensures out.text == old(out.text) + Write(NormalizeItems(items, 0), depth)
    decreases items
  {
    var i, rest := 0, items;
    while rest != []
      invariant i + |rest| == |items| && rest == items[i..]
      invariant (out.text + Write(NormalizeItems(rest, i), depth)
                 == old(out.text) + Write(NormalizeItems(items, 0), depth))
    {
      ghost var members := NormalizeItems(rest, i);
      assert members[1..] == NormalizeItems(rest[1..], i + 1);
      WriteStep(out.text, members, depth);
      EmitKey(out, Decimal(i), depth);
      EmitItem(out, items[i], depth);
      rest := rest[1..];
      i := i + 1;
    }
  }

  method EmitItem(out: TextBuffer, child: Node, depth: nat)
    modifies out
    ensures out.text == old(out.text) + WriteTree(NormalizeItem(child), depth)
    decreases child, 1
  {
    if child.Map? {
      BlockText(out.text, NormalizeEntries(child.entries), depth);
      OpenBlock(out, depth);
      EmitNode(out, child, depth + 1);
      CloseBlock(out, depth);
    } else {
      EmitString(out, if child.Scalar? then child.value else "", depth);
    }
  }

  /** `emitMap`. */
  method EmitMap(out: TextBuffer, entries: seq<Entry>, depth: nat)
    modifies out
    ensures out.text == old(out.text) + Write(NormalizeEntries(entries), depth)
    decreases entries
  {
    var i, rest := 0, entries;
    while rest != []
      invariant i + |rest| == |entries| && rest == entries[i..]
      invariant (out.text + Write(NormalizeEntries(rest), depth)
                 == old(out.text) + Write(NormalizeEntries(entries), depth))
    {
      ghost var members := NormalizeEntries(rest);
      assert members[1..] == NormalizeEntries(rest[1..]);
      WriteStep(out.text, members, depth);
      EmitKey(out, entries[i].key, depth);
      EmitValue(out, entries[i].node, depth);
      rest := rest[1..];
      i := i + 1;
    }
  }

  /** `emitNode`: anything but a map writes nothing. */
  method EmitNode(out: TextBuffer, node: Node, depth: nat)
    modifies out
    ensures out.text == old(out.text) + Write(Body(node), depth)
    decreases node, 0
  {
    if node.Map? {
      EmitMap(out, node.entries, depth);
    }
  }

  /** The end of `renderAppinfoBuffer`: the wire text of a body. */
  method RenderWire(body: Node) returns (wire: string)
    ensures wire == Wire(Body(body))
  {
    var out := new TextBuffer();
    out.Append("\"appinfo\"\n{\n");
    EmitNode(out, body, 1);
    out.Append("}\n");
    wire := out.text;
  }

  // ------------------------------------------------------------------ the reader

  lemma SkipLineStep(s: string)
    requires s != "" && s[0] != '\n'
    ensures SkipLine(s) == SkipLine(s[1..])
  {
  }

  lemma PrependUnquoted(out: string, c: char, r: Option<(string, string)>)
    requires r.Some?
    ensures out + ([c] + r.value.0) == (out + [c]) + r.value.0
  {
  }

  lemma BareStep(out: string, s: string)
    requires s != "" && !StopsBare(s[0])
    ensures out + Bare(s).0 == (out + [s[0]]) + Bare(s[1..]).0 && Bare(s).1 == Bare(s[1..]).1
  {
    hide Bare, StopsBare;
    BareUnfolds(s);
    PushOne(out, s[0], Bare(s[1..]).0, Bare(s).0);
  }

  lemma BareUnfolds(s: string)
    requires s != "" && !StopsBare(s[0])
    ensures Bare(s) == ([s[0]] + Bare(s[1..]).0, Bare(s[1..]).1)
  {
    hide StopsBare;
  }

  lemma PushOne(x: string, c: char, y: string, cy: string)
    requires cy == [c] + y
    ensures x + cy == (x + [c]) + y
  {
  }

  /** What `readQuoted` still has to find when it has read `out` and `s` is left. */
  function Continue(out: string, r: Option<(string, string)>): Option<(string, string)> {
    if r.None? then None else Some((out + r.value.0, r.value.1))
  }

  lemma ContinueStep(out: string, c: char, r: Option<(string, string)>)
    ensures Continue(out, if r.None? then None else Some(([c] + r.value.0, r.value.1))) == Continue(out + [c], r)
  {
    if r.Some? {
      PrependUnquoted(out, c, r);
    }
  }

  lemma ContinueNothing(r: Option<(string, string)>)
    ensures Continue("", r) == r
  {
    if r.Some? {
      NothingBefore(r.value.0);
    }
  }

  /** One turn of the loop of `readQuoted`. */
  lemma ContinueUnquote(out: string, s: string)
    ensures s == "" ==> Continue(out, Unquote(s)) == None
    ensures s != "" && s[0] == '"' ==> Continue(out, Unquote(s)) == Some((out, s[1..]))
    ensures |s| > 1 && s[0] == '\\'
            ==> Continue(out, Unquote(s)) == Continue(out + [Unescaped(s[1])], Unquote(s[2..]))
    ensures s != "" && s[0] != '"' && !(s[0] == '\\' && |s| > 1)
            ==> Continue(out, Unquote(s)) == Continue(out + [s[0]], Unquote(s[1..]))
  {
    hide Continue, Unescaped;
    if s == "" || s[0] == '"' {
      ContinueEnds(out, Unquote(s));
    } else if s[0] == '\\' && |s| > 1 {
      ContinueStep(out, Unescaped(s[1]), Unquote(s[2..]));
    } else {
      ContinueStep(out, s[0], Unquote(s[1..]));
    }
  }

  lemma ContinueEnds(out: string, r: Option<(string, string)>)
    ensures r == None ==> Continue(out, r) == None
    ensures r.Some? && r.value.0 == "" ==> Continue(out, r) == Some((out, r.value.1))
  {
    assert out + "" == out;
  }

  /** The reader over a text; it has read up to `p`. */
  class CmVdfReader {
    const text: string
    var p: nat

    predicate Valid()
      reads this
    {
      p <= |text|
    }

    function Rest(): string
      requires Valid()
      reads this
    {
      text[p..]
    }

    constructor (text: string)
      ensures this.text == text && Valid() && Rest() == text
    {
      this.text, p := text, 0;
    }

    /** The inner loop over a comment. */
    method SkipComment()
      requires Valid()
      modifies this
      ensures Valid() && Rest() == SkipLine(old(Rest()))
    {
      while p < |text| && text[p] != '\n'
        invariant Valid()
        invariant SkipLine(Rest()) == SkipLine(old(Rest()))
      {
        SkipLineStep(text[p..]);
        assert text[p..][1..] == text[p + 1..];
        p := p + 1;
      }
    }

    method SkipWs()
      requires Valid()
      modifies this
      ensures Valid() && Rest() == SkipBlank(old(Rest()))
    {
      while p < |text|
        invariant Valid()
        invariant SkipBlank(Rest()) == SkipBlank(old(Rest()))
        decreases |Rest()|
      {
        if IsSpace(text[p]) {
          assert text[p..][1..] == text[p + 1..];
          p := p + 1;
        } else if text[p] == '/' && p + 1 < |text| && text[p + 1] == '/' {
          assert StartsComment(Rest());
          SkipComment();
        } else {
          assert !StartsComment(Rest());
          break;
        }
      }
    }

    /** The characters after the opening quote. */
    method ReadQuoted() returns (r: Option<string>)
      requires Valid() && p < |text|
      modifies this
      ensures Valid()
      ensures var q := Unquote(old(Rest())[1..]);
              if q.None? then r.None? && Rest() == "" else r == Some(q.value.0) && Rest() == q.value.1
    {
      hide Unquote, Continue, Unescaped;
      assert text[p..][1..] == text[p + 1..];
      p := p + 1;
      var out := "";
      ghost var all := Unquote(Rest());
      ContinueNothing(all);
      while p < |text|
        invariant Valid()
        invariant Continue(out, Unquote(Rest())) == all
      {
        var c := text[p];
        ContinueUnquote(out, text[p..]);
        assert text[p..][1..] == text[p + 1..];
        if c == '"' {
          p := p + 1;
          return Some(out);
        }
        if c == '\\' && p + 1 < |text| {
          assert text[p..][2..] == text[p + 2..];
          out := out + [Unescaped(text[p + 1])];
          p := p + 2;
        } else {
          out := out + [c];
          p := p + 1;
        }
      }
      ContinueUnquote(out, Rest());
      return None;
    }

    method ReadBare() returns (out: string)
      requires Valid()
      modifies this
      ensures Valid() && (out, Rest()) == Bare(old(Rest()))
    {
      out := "";
      ghost var all := Bare(Rest());
      assert "" + all.0 == all.0;
      while p < |text| && !StopsBare(text[p])
        invariant Valid()
        invariant out + Bare(Rest()).0 == all.0 && Bare(Rest()).1 == all.1
      {
        assert text[p..][1..] == text[p + 1..];
        BareStep(out, text[p..]);
        out := out + [text[p]];
        p := p + 1;
      }
      assert out + "" == out;
    }

    /** `next`: the next token. Unless it is the end, the reader has moved on. */
    method NextToken() returns (token: Token)
      requires Valid()
      modifies this
      ensures Valid() && (token, Rest()) == Next(old(Rest()))
      ensures token != End ==> p > old(p)
    {
      SkipWs();
      if p == |text| {
        return End;
      }
      var c := text[p];
      assert text[p..][1..] == text[p + 1..];
      if c == '{' {
        p := p + 1;
        return OpenBrace;
      }
      if c == '}' {
        p := p + 1;
        return CloseBrace;
      }
      if c == '"' {
        var quoted := ReadQuoted();
        return if quoted.None? then End else Text(quoted.value);
      }
      var word := ReadBare();
      return Text(word);
    }

    /** `parseObject`. */
    method ParseObject() returns (members: seq<Member>)
      requires Valid()
      modifies this
      ensures Valid() && (members, Rest()) == ReadMembers([], old(Rest()))
      decreases |text| - p
    {
      members := [];
      while true
        invariant Valid()
        invariant ReadMembers(members, Rest()) == ReadMembers([], old(Rest()))
        invariant p >= old(p)
        decreases |text| - p
      {
        var key := NextToken();
        if !key.Text? {
          break;
        }
        var value := NextToken();
        if value.OpenBrace? {
          var inner := ParseObject();
          members := Put(members, key.text, Branch(inner));
        } else if value.Text? {
          members := Put(members, key.text, Leaf(value.text));
        } else {
          break;
        }
      }
    }

    /** `parseAppinfo`. */
    method ParseAppinfo() returns (body: Option<seq<Member>>)
      requires Valid()
      modifies this
      ensures Valid() && body == ReadWire(old(Rest()))
    {
      var key := NextToken();
      if !key.Text? {
        return None;
      }
      var brace := NextToken();
      if !brace.OpenBrace? {
        return None;
      }
      var members := ParseObject();
      return Some(members);
    }
  }

  /** What is rendered is read back. */
  method RenderThenParse(body: Node) returns (read: Option<seq<Member>>)
    requires DistinctNode(body)
    ensures read == Some(Body(body))
  {
    var wire := RenderWire(body);
    NodeReadsBack(body);
    var reader := new CmVdfReader(wire);
    read := reader.ParseAppinfo();
  }
}
