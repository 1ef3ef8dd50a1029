/** The two decoders of a textual byte signature: the lenient one the scanner
    uses (`patternToBytes`, src/memhlp.cpp) and the strict one the local catalog
    uses (`parseSignature`, src/pattern_cache.cpp). */
module Signatures {
  import opened Common
  import opened PatternScan

  const MAXIMUM_TOKENS: nat := 1024

  // ---------------------------------------------------- strict decoder, as text

  predicate IsUpperHex(c: char) {
    '0' <= c <= '9' || 'A' <= c <= 'F'
  }

  function Nibble(c: char): (n: nat)
    requires IsUpperHex(c)
    ensures n < 16
  {
    if c <= '9' then c as int - '0' as int else c as int - 'A' as int + 10
  }

  /** "?" or "??". */
  predicate IsWildcard(token: string) {
    1 <= |token| <= 2 && token[0] == '?' && token[|token| - 1] == '?'
  }

  function ParseToken(token: string): (p: Option<PatternByte>)
    ensures p.Some? ==> -1 <= p.value < 0x100
  {
    if IsWildcard(token) then Some(-1)
    else if |token| == 2 && IsUpperHex(token[0]) && IsUpperHex(token[1])
      then Some(Nibble(token[0]) * 16 + Nibble(token[1]))
    else None
  }

  /** The length of the token at the head of `s`: up to the next space. */
  function TokenEnd(s: string): (n: nat)
    ensures n <= |s|
    ensures n < |s| ==> s[n] == ' '
  {
    if s == [] || s[0] == ' ' then 0 else 1 + TokenEnd(s[1..])
  }

  /** The tokens of `s` separated by single spaces, at most `budget` of them. */
  function ParseTokens(s: string, budget: nat): Option<Pattern> {
    if s == [] then Some([])
    else if budget == 0 then None
    else
      var n := TokenEnd(s);
      match ParseToken(s[..n])
      case None => None
      case Some(p) =>
        if n == |s| then Some([p])
        else match ParseTokens(s[n + 1..], budget - 1)
          case None => None
          case Some(rest) => Some([p] + rest)
  }

  predicate HasLiteral(p: Pattern) {
    exists i :: 0 <= i < |p| && p[i] >= 0
  }

  function ParseSignature(s: string): Option<Pattern> {
    if s == [] || s[0] == ' ' || s[|s| - 1] == ' ' then None
    else match ParseTokens(s, MAXIMUM_TOKENS)
      case None => None
      case Some(p) => if HasLiteral(p) then Some(p) else None
  }

  // ----------------------------------------------- what the strict decoder accepts

  /** One or more tokens. */
  datatype Tokens = Last(token: string) | Then(token: string, rest: Tokens) {
    /** The tokens with one space between them. */
    function Text(): string {
      if Last? then token else token + (" " + rest.Text())
    }

    function Count(): (n: nat)
      ensures n >= 1
    {
      if Last? then 1 else 1 + rest.Count()
    }

    /** Every token parses. */
    predicate Valid() {
      ParseToken(token).Some? && (Then? ==> rest.Valid())
    }

    function Elements(): Pattern
      requires Valid()
    {
      if Last? then [ParseToken(token).value] else [ParseToken(token).value] + rest.Elements()
    }
  }

  /** At most 1024 tokens, at least one of them a literal. */
  predicate IsTokenList(tokens: Tokens) {
    tokens.Valid() && tokens.Count() <= 1024 && HasLiteral(tokens.Elements())
  }

  /** One or two question marks are a wildcard, two upper-case hex digits a byte, and
      nothing else is a token. */
  lemma TokenExactly(token: string)
    ensures ParseToken(token) == Some(-1) <==> token == ['?'] || token == ['?', '?']
    ensures forall v: PatternByte :: v >= 0 ==>
      (ParseToken(token) == Some(v) <==>
        && |token| == 2 && v == 16 * (v / 16) + v % 16 && v < 256
        && IsDigitOf(token[0], v / 16) && IsDigitOf(token[1], v % 16))
  {
  }

  /** `c` is the upper-case hex digit of a value below 16. */
  predicate IsDigitOf(c: char, n: int) {
    if n < 10 then c as int == '0' as int + n else c as int == 'A' as int + (n - 10)
  }

  lemma TokenHasNoSpace(token: string)
    requires ParseToken(token).Some?
    ensures token != "" && forall i :: 0 <= i < |token| ==> token[i] != ' '
  {
  }

  lemma {:induction false} TokenEndOf(token: string, rest: string)
    requires forall i :: 0 <= i < |token| ==> token[i] != ' '
    requires rest == "" || rest[0] == ' '
    ensures TokenEnd(token + rest) == |token|
  {
    if token == "" {
      assert token + rest == rest;
    } else {
      assert (token + rest)[1..] == token[1..] + rest;
      TokenEndOf(token[1..], rest);
    }
  }

  predicate ParsesTo(s: string, budget: nat, p: Pattern) {
    ParseTokens(s, budget) == Some(p)
  }

  /** A first token and the rest of the tokens. */
  lemma ParseTokensCons(token: string, rest: string, budget: nat, s: string, p: Pattern)
    requires ParseToken(token).Some? && budget > 0 && s == token + (" " + rest) && ParsesTo(rest, budget - 1, p)
    ensures ParsesTo(s, budget, [ParseToken(token).value] + p)
  {
    TokenHasNoSpace(token);
    TokenEndOf(token, " " + rest);
    assert s[..|token|] == token && s[|token| + 1..] == rest;
  }

  lemma ParseTokensOne(token: string, budget: nat)
    requires ParseToken(token).Some? && budget > 0
    ensures ParsesTo(token, budget, [ParseToken(token).value])
  {
    TokenHasNoSpace(token);
    TokenEndOf(token, "");
    assert token + "" == token && token[..|token|] == token;
  }

  lemma {:induction false} TokensParse(tokens: Tokens, budget: nat, s: string)
    requires tokens.Valid() && tokens.Count() <= budget && s == tokens.Text()
    ensures ParsesTo(s, budget, tokens.Elements())
  {
    match tokens
    case Last(token) => ParseTokensOne(token, budget);
    case Then(token, rest) =>
      var tail, elements := rest.Text(), rest.Elements();
      TokensParse(rest, budget - 1, tail);
      ParseTokensCons(token, tail, budget, s, elements);
  }

  lemma {:induction false} NoOuterSpace(tokens: Tokens, s: string)
    requires tokens.Valid() && s == tokens.Text()
    ensures s != "" && s[0] != ' ' && s[|s| - 1] != ' '
  {
    TokenHasNoSpace(tokens.token);
    if tokens.Then? {
      NoOuterSpace(tokens.rest, tokens.rest.Text());
    }
  }

  /** A text cut at its spaces. */
  function Cut(s: string): Tokens {
    var n := TokenEnd(s);
    if n == |s| then Last(s) else Then(s[..n], Cut(s[n + 1..]))
  }

  lemma CutStep(s: string, n: nat, tokens: Tokens)
    requires tokens == Cut(s) && n == TokenEnd(s)
    ensures tokens == if n == |s| then Last(s) else Then(s[..n], Cut(s[n + 1..]))
    ensures n < |s| ==> s[n] == ' '
  {
    hide TokenEnd;
  }

  lemma {:induction false} TextOfCut(s: string, tokens: Tokens)
    requires tokens == Cut(s)
    ensures tokens.Text() == s
    decreases |s|
  {
    hide TokenEnd, Cut;
    var n := TokenEnd(s);
    CutStep(s, n, tokens);
    if n < |s| {
      CutAtSpace(s, n);
      TextOfCut(s[n + 1..], tokens.rest);
    }
  }

  lemma CutAtSpace(s: string, n: nat)
    requires n < |s| && s[n] == ' '
    ensures s == s[..n] + (" " + s[n + 1..])
  {
  }

  predicate EndsPlain(s: string) { s != "" && s[|s| - 1] != ' ' }

  lemma TailEndsPlain(s: string, n: nat, tail: string)
    requires n < |s| && s[n] == ' ' && EndsPlain(s) && tail == s[n + 1..]
    ensures EndsPlain(tail)
  {
  }

  predicate Parses(s: string, budget: nat) { ParseTokens(s, budget).Some? }

  /** The first token of a parsed text, and what follows it. */
  lemma FirstToken(s: string, budget: nat, n: nat, tail: string)
    requires EndsPlain(s) && n == TokenEnd(s) && Parses(s, budget)
    requires n < |s| ==> tail == s[n + 1..]
    ensures budget > 0 && ParseToken(s[..n]).Some?
    ensures n < |s| ==> Parses(tail, budget - 1)
  {
    hide TokenEnd, ParseToken;
  }

  /** A parsed text without a final space is the text of its tokens. */
  lemma {:induction false} ParsedCut(s: string, budget: nat, tokens: Tokens)
    requires EndsPlain(s) && Parses(s, budget) && tokens == Cut(s)
    ensures tokens.Valid() && tokens.Count() <= budget
    decreases |s|
  {
    hide TokenEnd, ParseToken, Parses, Cut, EndsPlain;
    var n := TokenEnd(s);
    CutStep(s, n, tokens);
    if n == |s| {
      assert s[..n] == s;
      FirstToken(s, budget, n, "");
    } else {
      var tail := s[n + 1..];
      FirstToken(s, budget, n, tail);
      TailEndsPlain(s, n, tail);
      ParsedCut(tail, budget - 1, tokens.rest);
    }
  }

  /** A signature is accepted exactly when it is the text, with single spaces, of 1
      to 1024 tokens of which one is a literal, and then it means their elements. */
  lemma AcceptedExactly(s: string)
    ensures ParseSignature(s).Some? <==> exists tokens :: IsTokenList(tokens) && s == tokens.Text()
    ensures forall tokens ::
      IsTokenList(tokens) && s == tokens.Text() ==> ParseSignature(s) == Some(tokens.Elements())
  {
    forall tokens | IsTokenList(tokens) && s == tokens.Text()
      ensures ParseSignature(s) == Some(tokens.Elements())
    {
      TokenListIsAccepted(tokens, s);
    }
    if ParseSignature(s).Some? {
      var tokens := Cut(s);
      assert EndsPlain(s) && Parses(s, MAXIMUM_TOKENS);
      ParsedCut(s, MAXIMUM_TOKENS, tokens);
      TextOfCut(s, tokens);
      TokensParse(tokens, MAXIMUM_TOKENS, s);
      assert IsTokenList(tokens);
    }
  }

  lemma TokenListIsAccepted(tokens: Tokens, s: string)
    requires IsTokenList(tokens) && s == tokens.Text()
    ensures ParseSignature(s) == Some(tokens.Elements())
  {
    TokensParse(tokens, MAXIMUM_TOKENS, s);
    NoOuterSpace(tokens, s);
  }

  // ----------------------------------------------- the strict decoder's loop

  function Prefixed(done: Pattern, rest: Option<Pattern>): Option<Pattern> {
    match rest
    case None => None
    case Some(r) => Some(done + r)
  }

  /** One turn of the loop: the first token moves from the text to the result. */
  lemma PrefixedStep(done: Pattern, s: string, budget: nat, n: nat)
    requires s != [] && budget > 0 && n == TokenEnd(s) && n < |s| && ParseToken(s[..n]).Some?
    ensures Prefixed(done, ParseTokens(s, budget))
         == Prefixed(done + [ParseToken(s[..n]).value], ParseTokens(s[n + 1..], budget - 1))
  {
    hide TokenEnd, ParseToken;
    var p := ParseToken(s[..n]).value;
    var rest := ParseTokens(s[n + 1..], budget - 1);
    if rest.Some? {
      assert done + ([p] + rest.value) == (done + [p]) + rest.value;
    }
  }

  lemma PrefixedEnds(done: Pattern, s: string, budget: nat, n: nat)
    requires s != [] && n == TokenEnd(s)
    ensures budget == 0 || ParseToken(s[..n]).None? ==> Prefixed(done, ParseTokens(s, budget)) == None
    ensures budget > 0 && n == |s| && ParseToken(s[..n]).Some?
      ==> Prefixed(done, ParseTokens(s, budget)) == Some(done + [ParseToken(s[..n]).value])
  {
    hide TokenEnd, ParseToken;
  }

  lemma PrefixedNone(s: string, budget: nat)
    ensures ParseTokens(s, budget) == Prefixed([], ParseTokens(s, budget))
    ensures s == [] ==> ParseTokens(s, budget) == Some([])
  {
    var parsed := ParseTokens(s, budget);
    if parsed.Some? {
      assert [] + parsed.value == parsed.value;
    }
  }

  /** The loop of `parseSignature`, with its cursor and its growing result. */
  method ParseTokensLoop(s: string) returns (r: Option<Pattern>, fixed: bool)
    ensures r == ParseTokens(s, MAXIMUM_TOKENS)
    ensures r.Some? ==> fixed == HasLiteral(r.value)
  {
    hide TokenEnd, ParseToken, ParseTokens, HasLiteral;
    var result: Pattern := [];
    fixed := false;
    var rest := s;
    ghost var whole := ParseTokens(s, MAXIMUM_TOKENS);
    PrefixedNone(s, MAXIMUM_TOKENS);
    HasLiteralNone();
    while rest != []
      invariant |result| <= MAXIMUM_TOKENS
      invariant fixed <==> HasLiteral(result)
      invariant whole == Prefixed(result, ParseTokens(rest, MAXIMUM_TOKENS - |result|))
      decreases |rest|
    {
      var n := TokenEnd(rest);
      PrefixedEnds(result, rest, MAXIMUM_TOKENS - |result|, n);
      var token := ParseToken(rest[..n]);
      if |result| >= MAXIMUM_TOKENS || token == None {
        return None, fixed;
      }
      if n < |rest| {
        PrefixedStep(result, rest, MAXIMUM_TOKENS - |result|, n);
      }
      HasLiteralSnoc(result, token.value);
      result := result + [token.value];
      fixed := fixed || token.value >= 0;
      if n == |rest| {
        return Some(result), fixed;
      }
      rest := rest[n + 1..];
    }
    PrefixedNone(rest, MAXIMUM_TOKENS - |result|);
    assert result + [] == result;
    return Some(result), fixed;
  }

  /** `parseSignature`. */
  method ParseSignatureLoop(s: string) returns (r: Option<Pattern>)
    ensures r == ParseSignature(s)
  {
    if s == [] || s[0] == ' ' || s[|s| - 1] == ' ' {
      return None;
    }
    var parsed, fixed := ParseTokensLoop(s);
    return if parsed.Some? && fixed then parsed else None;
  }

  lemma HasLiteralNone()
    ensures !HasLiteral([])
  {
  }

  lemma HasLiteralSnoc(p: Pattern, b: PatternByte)
    ensures HasLiteral(p + [b]) <==> HasLiteral(p) || b >= 0
  {
    if HasLiteral(p) {
      var i :| 0 <= i < |p| && p[i] >= 0;
      assert (p + [b])[i] >= 0;
    }
    if b >= 0 {
      assert (p + [b])[|p|] >= 0;
    }
  }

  // ---------------------------------------------------- lenient decoder, as text

  function HexDigit(c: char): (d: Option<nat>)
    ensures d.Some? ==> d.value < 16
  {
    if '0' <= c <= '9' then Some(c as int - '0' as int)
    else if 'A' <= c <= 'F' then Some(c as int - 'A' as int + 10)
    else if 'a' <= c <= 'f' then Some(c as int - 'a' as int + 10)
    else None
  }

  /** The value of the hex digits at the head of `s`, after those already read
      into `value`, and their number. */
  function HexPrefix(s: string, value: nat): (r: (nat, nat))
    ensures r.1 <= |s|
    decreases |s|
  {
    if s == [] || HexDigit(s[0]).None? then (value, 0)
    else
      var (v, n) := HexPrefix(s[1..], value * 16 + HexDigit(s[0]).value);
      (v, n + 1)
  }

  /** A number and its length, moved `n` characters to the right; no digits
      means that nothing was consumed. */
  function Shift(r: (nat, nat), n: nat): (nat, nat) {
    if r.1 == 0 then (0, 0) else (r.0, r.1 + n)
  }

  /** Hex digits after an optional "0x". */
  function Unsigned(s: string): (r: (nat, nat))
    ensures r.1 <= |s|
  {
    if 2 < |s| && s[0] == '0' && (s[1] == 'x' || s[1] == 'X') && HexDigit(s[2]).Some?
      then Shift(HexPrefix(s[2..], 0), 2)
    else HexPrefix(s, 0)
  }

  /** The clamped value of `magnitude`, or its negation modulo 2^32. */
  function ToULong(magnitude: nat, negative: bool): UInt32 {
    if 0xFFFF_FFFF < magnitude then 0xFFFF_FFFF
    else if negative && magnitude != 0 then 0x1_0000_0000 - magnitude
    else magnitude
  }

  /** C `strtoul(s, &end, 16)` for a 32-bit unsigned long: the value and the
      number of characters consumed (none when there is no digit). */
  function StrToUl(s: string): (r: (UInt32, nat))
    ensures r.1 <= |s|
    decreases |s|
  {
    if s == [] then (0, 0)
    else if IsWhiteSpace(s[0]) then Shift(StrToUl(s[1..]), 1)
    else if s[0] == '-' || s[0] == '+' then
      var r := Shift(Unsigned(s[1..]), 1);
      (ToULong(r.0, s[0] == '-'), r.1)
    else
      var r := Unsigned(s);
      (ToULong(r.0, false), r.1)
  }

  /** Digits of either case, an overflow, a sign, and the truncation to int16_t. */
  lemma HexDigitAnswers()
    ensures HexDigit('0') == Some(0) && HexDigit('9') == Some(9) && HexDigit('A') == HexDigit('a') == Some(10)
    ensures HexDigit('F') == HexDigit('f') == Some(15) && HexDigit('g') == HexDigit('G') == HexDigit(' ') == None
    ensures ToULong(0x1_0000_0000, false) == ToULong(0x1_0000_0000, true) == ToULong(1, true) == 0xFFFF_FFFF
    ensures ToInt16(0x8000) == -0x8000 && ToInt16(0xFFFF_FFFF) == -1 && ToInt16(0x1_00E8) == 0xE8
  {
  }

  /** Conversion of an unsigned long to int16_t. */
  function ToInt16(v: UInt32): PatternByte {
    var low := v % 0x1_0000;
    if low < 0x8000 then low else low - 0x1_0000
  }

  /** The element a number at the head of `s` decodes to, and its length. */
  function Numeral(s: string): (PatternByte, nat) {
    var (v, n) := StrToUl(s);
    (ToInt16(v), n)
  }

  /** What remains after `n` characters and the one that follows them. */
  function After(s: string, n: nat): (rest: string)
    ensures s != [] ==> |rest| < |s|
  {
    if n < |s| then s[n + 1..] else []
  }

  /** The lenient decoding, with `numeral` to read a number. */
  function Decode(s: string, numeral: string -> (PatternByte, nat)): Pattern
    decreases |s|
  {
    if s == [] then []
    else if s[0] == '?' then [-1] + Decode(s[1..], numeral)
    else if s[0] == ' ' then Decode(s[1..], numeral)
    else [numeral(s).0] + Decode(After(s, numeral(s).1), numeral)
  }

  function PatternToBytes(s: string): Pattern {
    Decode(s, Numeral)
  }

  /** One turn of the loop: the first element moves from the text to the result. */
  lemma DecodeStep(bytes: Pattern, s: string, numeral: string -> (PatternByte, nat))
    ensures s == [] ==> bytes + Decode(s, numeral) == bytes
    ensures s != [] && s[0] == '?' ==> bytes + Decode(s, numeral) == (bytes + [-1]) + Decode(s[1..], numeral)
    ensures s != [] && s[0] == ' ' ==> bytes + Decode(s, numeral) == bytes + Decode(s[1..], numeral)
    ensures s != [] && s[0] != '?' && s[0] != ' ' ==>
      bytes + Decode(s, numeral) == (bytes + [numeral(s).0]) + Decode(After(s, numeral(s).1), numeral)
  {
    hide After;
  }

  /** `patternToBytes` as written, on a string without NUL. */
  method PatternToBytesLoop(s: string, numeral: string -> (PatternByte, nat)) returns (bytes: Pattern)
    ensures bytes == Decode(s, numeral)
  {
    hide Decode;
    bytes := [];
    var rest := s;
    assert bytes + Decode(rest, numeral) == Decode(rest, numeral);
    while rest != []
      invariant Decode(s, numeral) == bytes + Decode(rest, numeral)
      decreases |rest|
    {
      DecodeStep(bytes, rest, numeral);
      if rest[0] == '?' {
        bytes := bytes + [-1];
        rest := rest[1..];
      } else if rest[0] == ' ' {
        rest := rest[1..];
      } else {
        bytes := bytes + [numeral(rest).0];
        rest := After(rest, numeral(rest).1);
      }
    }
    DecodeStep(bytes, rest, numeral);
  }

  // -------------------------------------------------- how the decoders compare

  /** The number of "??" tokens of a strict signature. */
  function DoubleWildcards(s: string): nat {
    if s == [] then 0
    else
      var n := TokenEnd(s);
      (if IsWildcard(s[..n]) && n == 2 then 1 else 0) + (if n == |s| then 0 else DoubleWildcards(s[n + 1..]))
  }

  /** One strict token, decoded by the lenient decoder. */
  function LenientToken(token: string): Pattern {
    match ParseToken(token)
    case None => []
    case Some(p) => if IsWildcard(token) && |token| == 2 then [-1, -1] else [p]
  }

  predicate IsHexToken(s: string) {
    2 <= |s| && IsUpperHex(s[0]) && IsUpperHex(s[1]) && (2 < |s| ==> s[2] == ' ')
  }

  /** `numeral` reads a token of two upper-case hex digits as its value. */
  ghost predicate ReadsHexTokens(numeral: string -> (PatternByte, nat)) {
    forall s: string :: IsHexToken(s) ==> numeral(s) == (Nibble(s[0]) * 16 + Nibble(s[1]), 2)
  }

  /** The lenient decoder reads a strict token to the same element, except that
      it reads "??" as two wildcards. */
  lemma LenientHead(s: string, n: nat, numeral: string -> (PatternByte, nat))
    requires ReadsHexTokens(numeral)
    requires s != [] && n == TokenEnd(s) && ParseToken(s[..n]).Some?
    ensures Decode(s, numeral) == LenientToken(s[..n]) + Decode(After(s, n), numeral)
  {
    var token := s[..n];
    assert forall i :: 0 <= i < n ==> token[i] == s[i];
    if n == 1 {
      SkipSpace(s, 1, numeral);
    } else if s[0] == '?' {
      DoubleWildcardHead(s, numeral);
    } else {
      assert IsHexToken(s);
      assert numeral(s) == (ParseToken(token).value, 2);
    }
  }

  lemma DoubleWildcardHead(s: string, numeral: string -> (PatternByte, nat))
    requires 2 <= |s| && s[0] == '?' && s[1] == '?' && (2 < |s| ==> s[2] == ' ')
    ensures Decode(s, numeral) == [-1, -1] + Decode(After(s, 2), numeral)
  {
    WildcardHead(s[1..], After(s, 2), numeral);
  }

  /** A question mark at the end of a token. */
  lemma WildcardHead(s: string, rest: string, numeral: string -> (PatternByte, nat))
    requires s != "" && s[0] == '?' && (1 < |s| ==> s[1] == ' ') && rest == After(s, 1)
    ensures Decode(s, numeral) == [-1] + Decode(rest, numeral)
  {
    SkipSpace(s, 1, numeral);
  }

  lemma SkipSpace(s: string, n: nat, numeral: string -> (PatternByte, nat))
    requires n <= |s|
    requires n < |s| ==> s[n] == ' '
    ensures Decode(s[n..], numeral) == Decode(After(s, n), numeral)
  {
    if n < |s| {
      assert s[n..][0] == ' ' && s[n..][1..] == s[n + 1..];
    }
  }

  /** `strtoul` on two upper-case hex digits that end a token. */
  lemma NumeralReadsHexToken(s: string)
    requires IsHexToken(s)
    ensures Numeral(s) == (Nibble(s[0]) * 16 + Nibble(s[1]), 2)
  {
    var tail := s[1..];
    assert tail[0] == s[1];
    assert tail[1..] == [] || tail[1..][0] == ' ';
    assert HexPrefix(tail, Nibble(s[0])) == (Nibble(s[0]) * 16 + Nibble(s[1]), 1);
    assert HexPrefix(s, 0) == (Nibble(s[0]) * 16 + Nibble(s[1]), 2);
  }

  /** The tokens of `s`, each decoded by the lenient decoder. */
  function Expansion(s: string): Pattern
    decreases |s|
  {
    if s == [] then []
    else
      var n := TokenEnd(s);
      LenientToken(s[..n]) + Expansion(After(s, n))
  }

  lemma {:induction false} LenientExpands(s: string, budget: nat, numeral: string -> (PatternByte, nat))
    requires ReadsHexTokens(numeral)
    requires ParseTokens(s, budget).Some?
    ensures Decode(s, numeral) == Expansion(s)
    decreases |s|
  {
    if s != [] {
      var n := TokenEnd(s);
      assert ParseTokens(After(s, n), budget - 1).Some?;
      LenientExpands(After(s, n), budget - 1, numeral);
      LenientHead(s, n, numeral);
    }
  }

  /** The lenient decoding has one more element for every "??", and the same
      elements when there is none. */
  lemma {:induction false} ExpansionCompares(s: string, budget: nat)
    requires ParseTokens(s, budget).Some?
    ensures |Expansion(s)| == |ParseTokens(s, budget).value| + DoubleWildcards(s)
    ensures DoubleWildcards(s) == 0 ==> Expansion(s) == ParseTokens(s, budget).value
  {
    hide TokenEnd, ParseToken, IsWildcard;
    if s != [] {
      var n := TokenEnd(s);
      if n < |s| {
        ExpansionCompares(s[n + 1..], budget - 1);
      }
    }
  }

  /** The decoders agree on a strict signature exactly when it has no "??". */
  lemma DecodersAgree(s: string)
    requires ParseSignature(s).Some?
    ensures PatternToBytes(s) == ParseSignature(s).value <==> DoubleWildcards(s) == 0
  {
    forall t: string | IsHexToken(t)
      ensures Numeral(t) == (Nibble(t[0]) * 16 + Nibble(t[1]), 2)
    {
      NumeralReadsHexToken(t);
    }
    LenientExpands(s, MAXIMUM_TOKENS, Numeral);
    ExpansionCompares(s, MAXIMUM_TOKENS);
  }

  /** A signature that both decoders accept and read differently. */
  lemma DecodersDisagree()
    ensures ParseSignature("A1 ??") == Some([0xA1, -1]) && PatternToBytes("A1 ??") != [0xA1, -1]
  {
    hide ParseSignature, PatternToBytes, DoubleWildcards;
    var s, tokens := "A1 ??", Then("A1", Last("??"));
    assert "A1" + (" " + "??") == s;
    assert tokens.Elements() == [0xA1, -1] && tokens.Elements()[0] >= 0;
    TokenListIsAccepted(tokens, s);
    OneDoubleWildcard(s);
    DecodersAgree(s);
  }

  lemma OneDoubleWildcard(s: string)
    requires s == "A1 ??"
    ensures DoubleWildcards(s) == 1
  {
    hide TokenEnd;
    assert s == "A1" + " ??" && s[..2] == "A1" && s[3..] == "??";
    TokenEndOf("A1", " ??");
    assert "??" + "" == "??" && "??"[..2] == "??";
    TokenEndOf("??", "");
  }

  predicate IsSignatureText(s: string) {
    forall i :: 0 <= i < |s| ==> IsUpperHex(s[i]) || s[i] == '?' || s[i] == ' '
  }

  lemma TokenIsSafe(token: string)
    requires ParseToken(token).Some?
    ensures IsSignatureText(token)
  {
  }

  lemma SafeConcat(s: string, n: nat)
    requires n <= |s| && IsSignatureText(s[..n]) && IsSignatureText(After(s, n))
    requires n < |s| ==> s[n] == ' '
    ensures IsSignatureText(s)
  {
    forall i | 0 <= i < |s| ensures IsUpperHex(s[i]) || s[i] == '?' || s[i] == ' ' {
      if i < n {
        assert s[i] == s[..n][i];
      } else if i > n {
        assert s[i] == s[n + 1..][i - (n + 1)];
      }
    }
  }

  lemma ParsedStep(s: string, budget: nat, n: nat)
    requires s != "" && n == TokenEnd(s) && ParseTokens(s, budget).Some?
    ensures budget > 0 && ParseToken(s[..n]).Some? && ParseTokens(After(s, n), budget - 1).Some?
  {
    hide TokenEnd, ParseToken;
  }

  /** An accepted signature is made of hex digits, question marks and spaces. */
  lemma {:induction false} TokensAreSafe(s: string, budget: nat)
    requires ParseTokens(s, budget).Some?
    ensures IsSignatureText(s)
    decreases |s|
  {
    if s != [] {
      hide TokenEnd, ParseToken, ParseTokens, IsSignatureText, After;
      var n := TokenEnd(s);
      ParsedStep(s, budget, n);
      TokenIsSafe(s[..n]);
      TokensAreSafe(After(s, n), budget - 1);
      SafeConcat(s, n);
    }
  }
}
