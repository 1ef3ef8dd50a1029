/** The local catalog of resolved signatures: its text format, its validity rules
    and the checks that admit it (src/pattern_cache.cpp). */
module PatternCache {
  import opened Common
  import opened Text
  import Signatures

  const MAXIMUM_BODY_SIZE: nat := 0x1_0000
  const MAXIMUM_LOCATORS: nat := 128
  const SCHEMA_LINE := "schema=1"
  const LOCATOR_LINE := "[[locator]]"

  datatype ModuleIdentity = ModuleIdentity(
    component: string,
    moduleName: string,
    gnuBuildId: string,
    size: UInt64,
    mtimeSeconds: Int64,
    mtimeNanoseconds: Int64)

  datatype Locator = Locator(
    symbol: string,
    targetRva: UInt64,
    matchRva: UInt64,
    signature: string,
    followMode: string,
    required: bool)

  datatype Catalog = Catalog(identity: ModuleIdentity, locators: seq<Locator>)

  datatype CompiledLocator = CompiledLocator(symbol: string, required: bool, signature: string, followMode: string)

  // ------------------------------------------------------------------ validity

  predicate IsModule(component: string, moduleName: string) {
    || (component == "steamclient" && moduleName == "steamclient.so")
    || (component == "steamui" && moduleName == "steamui.so")
  }

  predicate IsLowerHex(s: string, maximum: nat) {
    && s != [] && |s| <= maximum && |s| % 2 == 0
    && forall i :: 0 <= i < |s| ==> '0' <= s[i] <= '9' || 'a' <= s[i] <= 'f'
  }

  predicate IsSymbolChar(c: char) {
    'A' <= c <= 'Z' || 'a' <= c <= 'z' || '0' <= c <= '9' || c == '_' || c == ':'
  }

  predicate IsSymbol(s: string) {
    "Patterns::" <= s && |s| > 10 && forall i :: 10 <= i < |s| ==> IsSymbolChar(s[i])
  }

  predicate IsFollowMode(s: string) {
    s == "None" || s == "Relative" || s == "PrologueUpwards"
  }

  predicate UniqueSymbols(locators: seq<Locator>) {
    forall i, j :: 0 <= i < j < |locators| ==> locators[i].symbol != locators[j].symbol
  }

  predicate ValidLocator(l: Locator, size: nat) {
    && IsSymbol(l.symbol)
    && l.targetRva < size
    && l.matchRva < size
    && IsFollowMode(l.followMode)
    && match Signatures.ParseSignature(l.signature)
       case None => false
       case Some(p) => |p| <= size - l.matchRva
  }

  predicate ValidIdentity(id: ModuleIdentity) {
    IsModule(id.component, id.moduleName) && IsLowerHex(id.gnuBuildId, 128) && id.size != 0
  }

  predicate ValidShape(c: Catalog) {
    && ValidIdentity(c.identity)
    && 0 < |c.locators| <= MAXIMUM_LOCATORS
    && UniqueSymbols(c.locators)
    && forall i :: 0 <= i < |c.locators| ==> ValidLocator(c.locators[i], c.identity.size)
  }

  /** The one part of an identity that the parser checks and the printer does not. */
  predicate NanosecondsInRange(c: Catalog) {
    0 <= c.identity.mtimeNanoseconds < 1_000_000_000
  }

  // ------------------------------------------------------------------- printer

  function Field(key: string, value: string): string {
    key + "=" + value
  }

  function HeaderLines(id: ModuleIdentity, count: nat): seq<string> {
    [ SCHEMA_LINE,
      Field("component", id.component),
      Field("module_name", id.moduleName),
      Field("gnu_build_id", id.gnuBuildId),
      Field("module_size", Decimal(id.size)),
      Field("mtime_seconds", SignedDecimal(id.mtimeSeconds)),
      Field("mtime_nanoseconds", SignedDecimal(id.mtimeNanoseconds)),
      Field("locator_count", Decimal(count)) ]
  }

  function LocatorLines(l: Locator): seq<string> {
    [ LOCATOR_LINE,
      Field("symbol", l.symbol),
      Field("target_rva", Decimal(l.targetRva)),
      Field("match_rva", Decimal(l.matchRva)),
      Field("signature", l.signature),
      Field("follow_mode", l.followMode),
      Field("required", if l.required then "true" else "false") ]
  }

  function AllLocatorLines(locators: seq<Locator>): seq<string> {
    if locators == [] then [] else LocatorLines(locators[0]) + AllLocatorLines(locators[1..])
  }

  function CatalogLines(c: Catalog): seq<string> {
    HeaderLines(c.identity, |c.locators|) + AllLocatorLines(c.locators)
  }

  /** The printed catalog; empty when it is invalid or too large to be read back. */
  function Serialize(c: Catalog): string {
    if !ValidShape(c) then ""
    else
      var body := Join(CatalogLines(c));
      if |body| <= MAXIMUM_BODY_SIZE then body else ""
  }

  // -------------------------------------------------------------------- parser

  /** The value of a "key=value" line; an empty value is no value. */
  function ValueLine(line: string, key: string): (v: Option<string>)
    ensures v.Some? ==> v.value != [] && line == Field(key, v.value)
  {
    var prefix := key + "=";
    if prefix <= line && |prefix| < |line| then Some(line[|prefix|..]) else None
  }

  function UnsignedLine(line: string, key: string, maximum: nat): (v: Option<nat>)
    ensures v.Some? ==> v.value <= maximum
  {
    var text :- ValueLine(line, key);
    ParseUnsigned(text, maximum)
  }

  function UInt64Line(line: string, key: string): Option<UInt64> {
    var v :- UnsignedLine(line, key, 0xFFFF_FFFF_FFFF_FFFF);
    Some(v)
  }

  function Int64Line(line: string, key: string): Option<Int64> {
    var text :- ValueLine(line, key);
    ParseInt64(text)
  }

  function BoolLine(line: string, key: string): Option<bool> {
    var text :- ValueLine(line, key);
    if text == "true" then Some(true) else if text == "false" then Some(false) else None
  }

  function ParseIdentity(lines: seq<string>): Option<ModuleIdentity>
    requires 8 <= |lines|
  {
    var component :- ValueLine(lines[1], "component");
    var moduleName :- ValueLine(lines[2], "module_name");
    var buildId :- ValueLine(lines[3], "gnu_build_id");
    var size :- UInt64Line(lines[4], "module_size");
    var seconds :- Int64Line(lines[5], "mtime_seconds");
    var nanoseconds :- Int64Line(lines[6], "mtime_nanoseconds");
    var id := ModuleIdentity(component, moduleName, buildId, size, seconds, nanoseconds);
    if ValidIdentity(id) && 0 <= nanoseconds < 1_000_000_000 then Some(id) else None
  }

  function ParseLocator(lines: seq<string>): Option<Locator>
    requires 7 <= |lines|
  {
    if lines[0] != LOCATOR_LINE then None
    else
      var symbol :- ValueLine(lines[1], "symbol");
      var target :- UInt64Line(lines[2], "target_rva");
      var site :- UInt64Line(lines[3], "match_rva");
      var signature :- ValueLine(lines[4], "signature");
      var followMode :- ValueLine(lines[5], "follow_mode");
      var required :- BoolLine(lines[6], "required");
      Some(Locator(symbol, target, site, signature, followMode, required))
  }

  /** Exactly `count` locators and nothing after them. */
  function ParseLocators(lines: seq<string>, count: nat): Option<seq<Locator>> {
    if count == 0 then if lines == [] then Some([]) else None
    else if |lines| < 7 then None
    else
      var l :- ParseLocator(lines[..7]);
      var rest :- ParseLocators(lines[7..], count - 1);
      Some([l] + rest)
  }

  function ParseLines(lines: seq<string>): Option<Catalog> {
    if |lines| < 9 || lines[0] != SCHEMA_LINE || lines[8] == [] then None
    else
      var id :- ParseIdentity(lines[..8]);
      var count :- UnsignedLine(lines[7], "locator_count", 0xFFFF_FFFF);
      if count == 0 || MAXIMUM_LOCATORS < count then None
      else
        var locators :- ParseLocators(lines[8..], count);
        var c := Catalog(id, locators);
        if ValidShape(c) then Some(c) else None
  }

  function Parse(body: string): Option<Catalog> {
    if body == [] || MAXIMUM_BODY_SIZE < |body| || !EndsLine(body) then None
    else ParseLines(Split(body))
  }

  // ------------------------------------------------- what is printed reads back

  lemma FieldReadsBack(key: string, value: string)
    requires value != []
    ensures ValueLine(Field(key, value), key) == Some(value)
  {
    var prefix := key + "=";
    assert Field(key, value) == prefix + value;
    assert Field(key, value)[|prefix|..] == value;
  }

  lemma UInt64ReadsBack(key: string, n: UInt64)
    ensures UInt64Line(Field(key, Decimal(n)), key) == Some(n)
  {
    FieldReadsBack(key, Decimal(n));
    UnsignedReadsBack(n, 0xFFFF_FFFF_FFFF_FFFF);
  }

  lemma Int64ReadsBack(key: string, n: Int64)
    ensures Int64Line(Field(key, SignedDecimal(n)), key) == Some(n)
  {
    FieldReadsBack(key, SignedDecimal(n));
    SignedReadsBack(n);
  }

  lemma IdentityReadsBack(id: ModuleIdentity, count: nat)
    requires ValidIdentity(id) && 0 <= id.mtimeNanoseconds < 1_000_000_000
    ensures ParseIdentity(HeaderLines(id, count)) == Some(id)
  {
    FieldReadsBack("component", id.component);
    FieldReadsBack("module_name", id.moduleName);
    FieldReadsBack("gnu_build_id", id.gnuBuildId);
    UInt64ReadsBack("module_size", id.size);
    Int64ReadsBack("mtime_seconds", id.mtimeSeconds);
    Int64ReadsBack("mtime_nanoseconds", id.mtimeNanoseconds);
  }

  lemma FieldsAreWritten(l: Locator, size: nat)
    requires ValidLocator(l, size)
    ensures l.symbol != "" && l.signature != "" && l.followMode != ""
  {
  }

  lemma LocatorReadsBack(l: Locator, size: nat)
    requires ValidLocator(l, size)
    ensures ParseLocator(LocatorLines(l)) == Some(l)
  {
    hide Field, ValueLine, UInt64Line, Decimal, IsSymbol;
    FieldsAreWritten(l, size);
    FieldReadsBack("symbol", l.symbol);
    UInt64ReadsBack("target_rva", l.targetRva);
    UInt64ReadsBack("match_rva", l.matchRva);
    FieldReadsBack("signature", l.signature);
    FieldReadsBack("follow_mode", l.followMode);
    FieldReadsBack("required", if l.required then "true" else "false");
  }

  lemma LocatorsParseCons(head: seq<string>, tail: seq<string>, l: Locator, rest: seq<Locator>, count: nat)
    requires |head| == 7 && ParseLocator(head) == Some(l)
    requires ParseLocators(tail, count) == Some(rest)
    ensures ParseLocators(head + tail, count + 1) == Some([l] + rest)
  {
    var lines := head + tail;
    assert lines[..7] == head && lines[7..] == tail;
  }

  lemma {:induction false} LocatorsReadBack(locators: seq<Locator>, size: nat)
    requires forall i :: 0 <= i < |locators| ==> ValidLocator(locators[i], size)
    ensures ParseLocators(AllLocatorLines(locators), |locators|) == Some(locators)
  {
    if locators != [] {
      var l, rest := locators[0], locators[1..];
      assert locators == [l] + rest;
      LocatorReadsBack(l, size);
      LocatorsReadBack(rest, size);
      LocatorsParseCons(LocatorLines(l), AllLocatorLines(rest), l, rest, |rest|);
    }
  }

  lemma CatalogReadsBack(c: Catalog)
    requires ValidShape(c) && NanosecondsInRange(c)
    ensures ParseLines(CatalogLines(c)) == Some(c)
  {
    var header, rest := HeaderLines(c.identity, |c.locators|), AllLocatorLines(c.locators);
    var lines := header + rest;
    assert lines[..8] == header && lines[8..] == rest;
    IdentityReadsBack(c.identity, |c.locators|);
    FieldReadsBack("locator_count", Decimal(|c.locators|));
    UnsignedReadsBack(|c.locators|, 0xFFFF_FFFF);
    LocatorsReadBack(c.locators, c.identity.size);
    assert rest[0] == LOCATOR_LINE;
  }

  // ------------------------------------------------ printed lines are lines

  lemma FieldIsLine(key: string, value: string)
    requires IsLine(key) && IsLine(value)
    ensures IsLine(Field(key, value))
  {
  }

  lemma {:induction false} DecimalIsLine(n: nat)
    ensures IsLine(Decimal(n))
  {
    DecimalReadsBack(n);
  }

  lemma SignedDecimalIsLine(n: int)
    ensures IsLine(SignedDecimal(n))
  {
    DecimalIsLine(if n < 0 then -n else n);
  }

  lemma KeysAreLines()
    ensures IsLine("component") && IsLine("module_name") && IsLine("gnu_build_id") && IsLine("module_size")
    ensures IsLine("mtime_seconds") && IsLine("mtime_nanoseconds") && IsLine("locator_count")
    ensures IsLine("symbol") && IsLine("target_rva") && IsLine("match_rva") && IsLine("signature")
    ensures IsLine("follow_mode") && IsLine("required") && IsLine("true") && IsLine("false")
    ensures IsLine(SCHEMA_LINE) && IsLine(LOCATOR_LINE)
  {
  }

  lemma HeaderAreLines(id: ModuleIdentity, count: nat)
    requires ValidIdentity(id)
    ensures AreLines(HeaderLines(id, count))
  {
    KeysAreLines();
    DecimalIsLine(id.size);
    DecimalIsLine(count);
    SignedDecimalIsLine(id.mtimeSeconds);
    SignedDecimalIsLine(id.mtimeNanoseconds);
    FieldIsLine("component", id.component);
    FieldIsLine("module_name", id.moduleName);
    FieldIsLine("gnu_build_id", id.gnuBuildId);
    FieldIsLine("module_size", Decimal(id.size));
    FieldIsLine("mtime_seconds", SignedDecimal(id.mtimeSeconds));
    FieldIsLine("mtime_nanoseconds", SignedDecimal(id.mtimeNanoseconds));
    FieldIsLine("locator_count", Decimal(count));
  }

  lemma LocatorAreLines(l: Locator, size: nat)
    requires ValidLocator(l, size)
    ensures AreLines(LocatorLines(l))
  {
    KeysAreLines();
    DecimalIsLine(l.targetRva);
    DecimalIsLine(l.matchRva);
    SignatureIsLine(l.signature);
    SymbolIsLine(l.symbol);
    FieldIsLine("symbol", l.symbol);
    FieldIsLine("target_rva", Decimal(l.targetRva));
    FieldIsLine("match_rva", Decimal(l.matchRva));
    FieldIsLine("signature", l.signature);
    FieldIsLine("follow_mode", l.followMode);
    FieldIsLine("required", if l.required then "true" else "false");
  }

  lemma SignatureIsLine(s: string)
    requires Signatures.ParseSignature(s).Some?
    ensures IsLine(s)
  {
    Signatures.TokensAreSafe(s, Signatures.MAXIMUM_TOKENS);
  }

  lemma SymbolIsLine(s: string)
    requires IsSymbol(s)
    ensures IsLine(s)
  {
    forall i | 0 <= i < |s|
      ensures s[i] != '\n'
    {
      if i < 10 {
        assert s[i] == "Patterns::"[i];
      }
    }
  }

  lemma {:induction false} AllLocatorsAreLines(locators: seq<Locator>, size: nat)
    requires forall i :: 0 <= i < |locators| ==> ValidLocator(locators[i], size)
    ensures AreLines(AllLocatorLines(locators))
  {
    if locators != [] {
      LocatorAreLines(locators[0], size);
      AllLocatorsAreLines(locators[1..], size);
    }
  }

  lemma CatalogAreLines(c: Catalog)
    requires ValidShape(c)
    ensures AreLines(CatalogLines(c))
  {
    HeaderAreLines(c.identity, |c.locators|);
    AllLocatorsAreLines(c.locators, c.identity.size);
  }

  lemma SerializedLines(c: Catalog)
    requires Serialize(c) != ""
    ensures ValidShape(c) && |Serialize(c)| <= MAXIMUM_BODY_SIZE && EndsLine(Serialize(c))
    ensures Split(Serialize(c)) == CatalogLines(c)
  {
    CatalogAreLines(c);
    SplitOfJoin(CatalogLines(c));
    JoinEndsLine(CatalogLines(c));
  }

  /** A catalog that serializes is read back as itself, exactly when its
      nanoseconds are in range: the parser checks them, the printer does not. */
  lemma SerializedReadsBack(c: Catalog)
    requires Serialize(c) != ""
    ensures Parse(Serialize(c)) == Some(c) <==> NanosecondsInRange(c)
  {
    SerializedLines(c);
    if NanosecondsInRange(c) {
      CatalogReadsBack(c);
    } else if Parse(Serialize(c)) == Some(c) {
      ParsedIsValid(Serialize(c));
    }
  }

  lemma {:induction false} JoinEndsLine(lines: seq<string>)
    requires lines != []
    ensures EndsLine(Join(lines))
  {
    if lines[1..] == [] {
      assert Join(lines[1..]) == [];
    } else {
      JoinEndsLine(lines[1..]);
    }
  }

  lemma ParsedIsValid(body: string)
    requires Parse(body).Some?
    ensures ValidShape(Parse(body).value) && NanosecondsInRange(Parse(body).value)
  {
    IdentityInRange(Split(body)[..8]);
  }

  lemma IdentityInRange(lines: seq<string>)
    requires 8 <= |lines| && ParseIdentity(lines).Some?
    ensures 0 <= ParseIdentity(lines).value.mtimeNanoseconds < 1_000_000_000
  {
  }

  // --------------------------------------- what is read prints no longer than it was

  /** Line by line, `a` is no longer than `b`. */
  ghost predicate NoLonger(a: seq<string>, b: seq<string>) {
    |a| == |b| && forall i :: 0 <= i < |a| ==> |a[i]| <= |b[i]|
  }

  lemma UInt64LineShrinks(line: string, key: string)
    requires UInt64Line(line, key).Some?
    ensures |Field(key, Decimal(UInt64Line(line, key).value))| <= |line|
  {
    DecimalIsShortest(ValueLine(line, key).value);
  }

  lemma BoolLineShrinks(line: string, key: string)
    requires BoolLine(line, key).Some?
    ensures Field(key, if BoolLine(line, key).value then "true" else "false") == line
  {
  }

  lemma Int64LineShrinks(line: string, key: string)
    requires Int64Line(line, key).Some?
    ensures |Field(key, SignedDecimal(Int64Line(line, key).value))| <= |line|
  {
    SignedIsShortest(ValueLine(line, key).value);
  }

  lemma UnsignedLineShrinks(line: string, key: string, maximum: nat, n: nat)
    requires UnsignedLine(line, key, maximum) == Some(n)
    ensures |Field(key, Decimal(n))| <= |line|
  {
    DecimalIsShortest(ValueLine(line, key).value);
  }

  lemma IdentityShrinks(lines: seq<string>, count: nat)
    requires |lines| == 8 && lines[0] == SCHEMA_LINE
    requires ParseIdentity(lines).Some? && UnsignedLine(lines[7], "locator_count", 0xFFFF_FFFF) == Some(count)
    ensures NoLonger(HeaderLines(ParseIdentity(lines).value, count), lines)
  {
    hide Decimal, SignedDecimal, Field, ValueLine, UInt64Line, Int64Line, UnsignedLine, ValidIdentity;
    UInt64LineShrinks(lines[4], "module_size");
    Int64LineShrinks(lines[5], "mtime_seconds");
    Int64LineShrinks(lines[6], "mtime_nanoseconds");
    UnsignedLineShrinks(lines[7], "locator_count", 0xFFFF_FFFF, count);
  }

  lemma LocatorShrinks(lines: seq<string>)
    requires |lines| == 7 && ParseLocator(lines).Some?
    ensures NoLonger(LocatorLines(ParseLocator(lines).value), lines)
  {
    hide Decimal, Field, ValueLine, UInt64Line;
    UInt64LineShrinks(lines[2], "target_rva");
    UInt64LineShrinks(lines[3], "match_rva");
    BoolLineShrinks(lines[6], "required");
  }

  lemma {:induction false} LocatorsShrink(lines: seq<string>, count: nat)
    requires ParseLocators(lines, count).Some?
    ensures |ParseLocators(lines, count).value| == count
    ensures NoLonger(AllLocatorLines(ParseLocators(lines, count).value), lines)
  {
    hide ParseLocator, LocatorLines;
    if count > 0 {
      var head, tail := lines[..7], lines[7..];
      LocatorShrinks(head);
      LocatorsShrink(tail, count - 1);
      var rest := ParseLocators(tail, count - 1).value;
      var locators := [ParseLocator(head).value] + rest;
      assert locators[1..] == rest;
      NoLongerConcat(LocatorLines(locators[0]), head, AllLocatorLines(rest), tail);
      assert lines == head + tail;
    }
  }

  lemma NoLongerConcat(a: seq<string>, a': seq<string>, b: seq<string>, b': seq<string>)
    requires NoLonger(a, a') && NoLonger(b, b')
    ensures NoLonger(a + b, a' + b')
  {
  }

  lemma CatalogShrinks(header: seq<string>, rest: seq<string>, id: ModuleIdentity, count: nat, locators: seq<Locator>)
    requires |header| == 8 && header[0] == SCHEMA_LINE && ParseIdentity(header) == Some(id)
    requires UnsignedLine(header[7], "locator_count", 0xFFFF_FFFF) == Some(count)
    requires ParseLocators(rest, count) == Some(locators)
    ensures NoLonger(CatalogLines(Catalog(id, locators)), header + rest)
  {
    LocatorsShrink(rest, count);
    IdentityShrinks(header, count);
    NoLongerConcat(HeaderLines(id, count), header, AllLocatorLines(locators), rest);
  }

  lemma CountIsLength(lines: seq<string>)
    requires ParseLines(lines).Some?
    ensures var n := |ParseLines(lines).value.locators|;
      && UnsignedLine(lines[7], "locator_count", 0xFFFF_FFFF) == Some(n)
      && ParseLocators(lines[8..], n) == Some(ParseLines(lines).value.locators)
  {
    LocatorsShrink(lines[8..], UnsignedLine(lines[7], "locator_count", 0xFFFF_FFFF).value);
  }

  /** Every accepted text re-serializes to a text that is no longer and that
      reads back to the same catalog. */
  lemma ParsedReserializes(body: string)
    requires Parse(body).Some?
    ensures var c := Parse(body).value;
      && Serialize(c) != ""
      && |Serialize(c)| <= |body|
      && Parse(Serialize(c)) == Some(c)
  {
    hide HeaderLines, AllLocatorLines, ParseIdentity, ParseLocators, UnsignedLine, Join;
    var lines := Split(body);
    var c := ParseLines(lines).value;
    ParsedIsValid(body);
    CountIsLength(lines);
    var header, rest := lines[..8], lines[8..];
    assert lines == header + rest && header[7] == lines[7];
    CatalogShrinks(header, rest, c.identity, |c.locators|, c.locators);
    JoinIsMonotone(CatalogLines(c), lines);
    JoinOfSplit(body);
    JoinEndsLine(CatalogLines(c));
    SerializedReadsBack(c);
  }

  predicate Short(line: string) { |line| <= 40 }

  lemma {:induction false} JoinOfShortLines(lines: seq<string>)
    requires forall i :: 0 <= i < |lines| ==> Short(lines[i])
    ensures |Join(lines)| <= |lines| * 41
  {
    if lines != [] {
      JoinOfShortLines(lines[1..]);
    }
  }

  lemma FieldIsShort(key: string, value: string)
    requires |key| <= 20 && |value| <= 19
    ensures Short(Field(key, value))
  {
  }

  /** A catalog that is printed although its nanoseconds are out of range, and
      then does not read back. */
  lemma OutOfRangeIsPrinted() returns (c: Catalog)
    ensures c.identity.mtimeNanoseconds == -1
    ensures Serialize(c) != "" && Parse(Serialize(c)) != Some(c)
  {
    var id := ModuleIdentity("steamui", "steamui.so", "ab", 8, 0, -1);
    var l := Locator("Patterns::A", 0, 0, "A1", "None", true);
    c := Catalog(id, [l]);
    SmallLocatorIsValid(l);
    var header, lines := HeaderLines(id, 1), LocatorLines(l);
    assert AllLocatorLines([l]) == lines + AllLocatorLines([]);
    ShortHeader(id);
    ShortLocator(l);
    JoinOfShortLines(header + lines);
    assert CatalogLines(c) == header + lines;
    SerializedReadsBack(c);
  }

  lemma SmallLocatorIsValid(l: Locator)
    requires l == Locator("Patterns::A", 0, 0, "A1", "None", true)
    ensures ValidLocator(l, 8)
  {
    Signatures.ParseTokensOne("A1", Signatures.MAXIMUM_TOKENS);
    assert Signatures.ParseTokens("A1", Signatures.MAXIMUM_TOKENS).value[0] >= 0;
    assert l.symbol[..10] == "Patterns::" && l.symbol[10] == 'A';
  }

  lemma ShortHeader(id: ModuleIdentity)
    requires id == ModuleIdentity("steamui", "steamui.so", "ab", 8, 0, -1)
    ensures forall i :: 0 <= i < 8 ==> Short(HeaderLines(id, 1)[i])
  {
    FieldIsShort("component", id.component);
    FieldIsShort("module_name", id.moduleName);
    FieldIsShort("gnu_build_id", id.gnuBuildId);
    FieldIsShort("module_size", Decimal(id.size));
    FieldIsShort("mtime_seconds", SignedDecimal(id.mtimeSeconds));
    FieldIsShort("mtime_nanoseconds", SignedDecimal(id.mtimeNanoseconds));
    FieldIsShort("locator_count", Decimal(1));
    assert Short(SCHEMA_LINE);
  }

  lemma ShortLocator(l: Locator)
    requires l == Locator("Patterns::A", 0, 0, "A1", "None", true)
    ensures forall i :: 0 <= i < 7 ==> Short(LocatorLines(l)[i])
  {
    FieldIsShort("symbol", l.symbol);
    FieldIsShort("target_rva", Decimal(l.targetRva));
    FieldIsShort("match_rva", Decimal(l.matchRva));
    FieldIsShort("signature", l.signature);
    FieldIsShort("follow_mode", l.followMode);
    FieldIsShort("required", "true");
    assert Short(LOCATOR_LINE);
  }

  // ------------------------------------------------------------- the format, spelled out

  /** The lines of a catalog: eight of its module, and seven of every locator. */
  lemma {:induction false} LinesExactly(c: Catalog, i: nat)
    requires i < |c.locators|
    ensures var id, l, lines := c.identity, c.locators[i], CatalogLines(c);
      && |lines| == 8 + 7 * |c.locators|
      && lines[..8] == [ "schema=1", "component" + "=" + id.component, "module_name" + "=" + id.moduleName,
                         "gnu_build_id" + "=" + id.gnuBuildId, "module_size" + "=" + Decimal(id.size),
                         "mtime_seconds" + "=" + SignedDecimal(id.mtimeSeconds),
                         "mtime_nanoseconds" + "=" + SignedDecimal(id.mtimeNanoseconds),
                         "locator_count" + "=" + Decimal(|c.locators|) ]
      && lines[8 + 7 * i..15 + 7 * i]
         == [ "[[locator]]", "symbol" + "=" + l.symbol, "target_rva" + "=" + Decimal(l.targetRva),
              "match_rva" + "=" + Decimal(l.matchRva), "signature" + "=" + l.signature,
              "follow_mode" + "=" + l.followMode, "required" + "=" + if l.required then "true" else "false" ]
  {
    hide Decimal, SignedDecimal;
    LocatorLinesAt(c.locators, i);
    var header, rest := HeaderLines(c.identity, |c.locators|), AllLocatorLines(c.locators);
    assert (header + rest)[8 + 7 * i..15 + 7 * i] == rest[7 * i..7 * i + 7];
  }

  lemma {:induction false} LocatorLinesAt(locators: seq<Locator>, i: nat)
    requires i < |locators|
    ensures var lines := AllLocatorLines(locators);
            |lines| == 7 * |locators| && lines[7 * i..7 * i + 7] == LocatorLines(locators[i])
  {
    hide Decimal, Field;
    AllLocatorLinesLength(locators);
    var first, rest := LocatorLines(locators[0]), AllLocatorLines(locators[1..]);
    if i == 0 {
      assert (first + rest)[0..7] == first;
    } else {
      LocatorLinesAt(locators[1..], i - 1);
      assert (first + rest)[7 * i..7 * i + 7] == rest[7 * (i - 1)..7 * (i - 1) + 7];
    }
  }

  lemma {:induction false} AllLocatorLinesLength(locators: seq<Locator>)
    ensures |AllLocatorLines(locators)| == 7 * |locators|
  {
    hide Decimal, Field;
    if locators == [] {
      assert AllLocatorLines(locators) == [];
    } else {
      AllLocatorLinesLength(locators[1..]);
      assert |LocatorLines(locators[0])| == 7;
    }
  }

  /** A catalog is printed exactly when it is valid and its text is no longer than 64
      KiB; a longer text, or one without a last newline, is not parsed. */
  lemma SizesExactly(c: Catalog, body: string)
    ensures Serialize(c) == if ValidShape(c) && |Join(CatalogLines(c))| <= 65536 then Join(CatalogLines(c)) else ""
    ensures Parse(body).Some? ==> 0 < |body| <= 65536 && body[|body| - 1] == '\n'
  {
    hide ValidShape, CatalogLines;
  }

  /** Every line is terminated by one newline. */
  lemma JoinExactly(first: string, second: string)
    ensures Join([first, second]) == first + ("\n" + (second + ("\n" + "")))
  {
    JoinOfCons(second, []);
    JoinOfCons(first, [second]);
    assert [second] + [] == [second] && [first] + [second] == [first, second];
  }

  /** Numbers are written in decimal, without zeros in front. */
  lemma DecimalAnswers()
    ensures Decimal(0) == "0" && Decimal(4096) == "4096" && SignedDecimal(-15) == "-15"
  {
    assert Decimal(4) == "4" && Decimal(40) == "40" && Decimal(409) == "409";
    assert Decimal(1) == "1" && Decimal(15) == "15";
  }

  /** What the validity rules say of a catalog. */
  lemma ValidExactly(c: Catalog)
    ensures ValidShape(c) <==>
      && (|| (c.identity.component == "steamclient" && c.identity.moduleName == "steamclient.so")
          || (c.identity.component == "steamui" && c.identity.moduleName == "steamui.so"))
      && 2 <= |c.identity.gnuBuildId| <= 128 && |c.identity.gnuBuildId| % 2 == 0
      && (forall i :: 0 <= i < |c.identity.gnuBuildId| ==>
            '0' <= c.identity.gnuBuildId[i] <= '9' || 'a' <= c.identity.gnuBuildId[i] <= 'f')
      && c.identity.size > 0 && 1 <= |c.locators| <= 128
      && (forall i, j :: 0 <= i < j < |c.locators| ==> c.locators[i].symbol != c.locators[j].symbol)
      && (forall i :: 0 <= i < |c.locators| ==> LocatorStands(c.locators[i], c.identity.size))
  {
    hide ValidLocator, LocatorStands;
    forall l | l in c.locators ensures ValidLocator(l, c.identity.size) == LocatorStands(l, c.identity.size) {
      LocatorExactly(l, c.identity.size);
    }
    assert forall i :: 0 <= i < |c.locators| ==> c.locators[i] in c.locators;
  }

  /** "Patterns::" and a name, two addresses inside the module, a mode, and a signature
      with room for it. */
  predicate LocatorStands(l: Locator, size: nat) {
    && 10 < |l.symbol| && l.symbol[..10] == "Patterns::"
    && (forall k :: 10 <= k < |l.symbol| ==>
          || 'A' <= l.symbol[k] <= 'Z' || 'a' <= l.symbol[k] <= 'z' || '0' <= l.symbol[k] <= '9'
          || l.symbol[k] == '_' || l.symbol[k] == ':')
    && l.targetRva < size && l.matchRva < size
    && (l.followMode == "None" || l.followMode == "Relative" || l.followMode == "PrologueUpwards")
    && Signatures.ParseSignature(l.signature).Some?
    && l.matchRva + |Signatures.ParseSignature(l.signature).value| <= size
  }

  lemma LocatorExactly(l: Locator, size: nat)
    ensures ValidLocator(l, size) <==> LocatorStands(l, size)
  {
    hide Signatures.ParseSignature;
  }

  // ------------------------------------------------------- what parses, spelled out

  predicate Spells(digits: string, n: int) {
    digits != "" && AllDigits(digits) && ValueOf(digits) == n
  }

  /** A line "key=digits" of the value `n`; zeros may stand in front. */
  predicate Reads(line: string, key: string, n: int) {
    key + "=" <= line && Spells(line[|key| + 1..], n)
  }

  predicate ReadsSigned(line: string, key: string, n: int) {
    || Reads(line, key, n)
    || (key + "=-" <= line && Spells(line[|key| + 2..], -n))
  }

  predicate HeaderReads(lines: seq<string>, id: ModuleIdentity, count: nat)
    requires |lines| == 8
  {
    && lines[0] == "schema=1" && lines[1] == "component" + "=" + id.component
    && lines[2] == "module_name" + "=" + id.moduleName && lines[3] == "gnu_build_id" + "=" + id.gnuBuildId
    && Reads(lines[4], "module_size", id.size) && ReadsSigned(lines[5], "mtime_seconds", id.mtimeSeconds)
    && ReadsSigned(lines[6], "mtime_nanoseconds", id.mtimeNanoseconds) && Reads(lines[7], "locator_count", count)
  }

  predicate LocatorReads(lines: seq<string>, l: Locator)
    requires |lines| == 7
  {
    && lines[0] == "[[locator]]" && lines[1] == "symbol" + "=" + l.symbol
    && Reads(lines[2], "target_rva", l.targetRva) && Reads(lines[3], "match_rva", l.matchRva)
    && lines[4] == "signature" + "=" + l.signature && lines[5] == "follow_mode" + "=" + l.followMode
    && lines[6] == "required" + "=" + if l.required then "true" else "false"
  }

  lemma ValueLineExactly(line: string, key: string, v: string)
    ensures ValueLine(line, key) == Some(v) <==> v != "" && line == key + "=" + v
  {
    if v != "" && line == key + "=" + v {
      FieldReadsBack(key, v);
    }
  }

  lemma UnsignedLineExactly(line: string, key: string, maximum: nat, n: nat)
    requires n <= maximum
    ensures UnsignedLine(line, key, maximum) == Some(n) <==> Reads(line, key, n)
  {
    hide ValueOf;
    assert |key + "="| == |key| + 1;
  }

  lemma Int64LineExactly(line: string, key: string, n: Int64)
    ensures Int64Line(line, key) == Some(n) <==> ReadsSigned(line, key, n)
  {
    hide ValueOf;
    assert |key + "="| == |key| + 1 && |key + "=-"| == |key| + 2;
    if key + "=" <= line && |line| > |key| + 1 {
      assert line[|key| + 1..][1..] == line[|key| + 2..];
      assert key + "=-" <= line <==> line[|key| + 1] == '-';
    }
  }

  lemma IdentityExactly(lines: seq<string>, id: ModuleIdentity, count: nat)
    requires |lines| == 8 && ValidIdentity(id) && 0 <= id.mtimeNanoseconds < 1_000_000_000
    requires lines[0] == "schema=1" && Reads(lines[7], "locator_count", count)
    ensures ParseIdentity(lines) == Some(id) <==> HeaderReads(lines, id, count)
  {
    hide Reads, ReadsSigned, ValueLine, UnsignedLine, Int64Line;
    ValueLineExactly(lines[1], "component", id.component);
    ValueLineExactly(lines[2], "module_name", id.moduleName);
    ValueLineExactly(lines[3], "gnu_build_id", id.gnuBuildId);
    UnsignedLineExactly(lines[4], "module_size", 0xFFFF_FFFF_FFFF_FFFF, id.size);
    Int64LineExactly(lines[5], "mtime_seconds", id.mtimeSeconds);
    Int64LineExactly(lines[6], "mtime_nanoseconds", id.mtimeNanoseconds);
  }

  lemma LocatorLineExactly(lines: seq<string>, l: Locator, size: nat)
    requires |lines| == 7 && ValidLocator(l, size)
    ensures ParseLocator(lines) == Some(l) <==> LocatorReads(lines, l)
  {
    hide Reads, ValueLine, UnsignedLine;
    FieldsAreWritten(l, size);
    ValueLineExactly(lines[1], "symbol", l.symbol);
    UnsignedLineExactly(lines[2], "target_rva", 0xFFFF_FFFF_FFFF_FFFF, l.targetRva);
    UnsignedLineExactly(lines[3], "match_rva", 0xFFFF_FFFF_FFFF_FFFF, l.matchRva);
    ValueLineExactly(lines[4], "signature", l.signature);
    ValueLineExactly(lines[5], "follow_mode", l.followMode);
    BoolLineExactly(lines[6], "required", l.required);
  }

  lemma BoolLineExactly(line: string, key: string, b: bool)
    ensures BoolLine(line, key) == Some(b) <==> line == key + "=" + if b then "true" else "false"
  {
    hide ValueLine;
    ValueLineExactly(line, key, "true");
    ValueLineExactly(line, key, "false");
  }

  lemma {:induction false} LocatorsExactly(lines: seq<string>, locators: seq<Locator>, size: nat)
    requires forall i :: 0 <= i < |locators| ==> ValidLocator(locators[i], size)
    ensures ParseLocators(lines, |locators|) == Some(locators)
       <==> && |lines| == 7 * |locators|
            && forall i :: 0 <= i < |locators| ==> LocatorReads(lines[7 * i..7 * i + 7], locators[i])
  {
    hide ParseLocator, LocatorReads, ValidLocator;
    if locators != [] && |lines| >= 7 {
      var rest, more := lines[7..], locators[1..];
      LocatorLineExactly(lines[..7], locators[0], size);
      LocatorsExactly(rest, more, size);
      assert lines[7 * 0..7 * 0 + 7] == lines[..7];
      if |lines| == 7 * |locators| {
        forall i | 0 <= i < |more| ensures rest[7 * i..7 * i + 7] == lines[7 * (i + 1)..7 * (i + 1) + 7] {
        }
        assert forall i :: 1 <= i < |locators| ==> locators[i] == more[i - 1];
      }
      assert locators == [locators[0]] + more;
    }
  }

  /** The lines a catalog parses from, up to zeros in front of a number and the sign of
      a zero; nothing follows them. */
  predicate CatalogReads(lines: seq<string>, c: Catalog) {
    && |lines| == 8 + 7 * |c.locators|
    && HeaderReads(lines[..8], c.identity, |c.locators|)
    && forall i :: 0 <= i < |c.locators| ==> LocatorReads(lines[8 + 7 * i..8 + 7 * i + 7], c.locators[i])
  }

  /** What parses: a terminated text of at most 64 KiB with these lines; the catalog is
      valid and its nanoseconds are in range. */
  lemma ParsedExactly(body: string, c: Catalog)
    ensures Parse(body) == Some(c) <==>
      && ValidShape(c) && 0 <= c.identity.mtimeNanoseconds < 1_000_000_000
      && 0 < |body| <= 65536 && body[|body| - 1] == '\n' && CatalogReads(Split(body), c)
  {
    hide ValidShape, CatalogReads, ParseLines, Split;
    LinesParse(Split(body), c);
  }

  lemma LinesParse(lines: seq<string>, c: Catalog)
    ensures ParseLines(lines) == Some(c) <==> ValidShape(c) && NanosecondsInRange(c) && CatalogReads(lines, c)
  {
    hide ValidShape, HeaderReads, LocatorReads, ParseIdentity, ParseLocators, UnsignedLine, Reads;
    if ParseLines(lines) == Some(c) {
      ParsedLines(lines, c);
    }
    if ValidShape(c) && NanosecondsInRange(c) && CatalogReads(lines, c) {
      ReadLines(lines, c);
    }
  }

  lemma ReadLines(lines: seq<string>, c: Catalog)
    requires ValidShape(c) && NanosecondsInRange(c) && CatalogReads(lines, c)
    ensures ParseLines(lines) == Some(c)
  {
    hide ValidIdentity, ValidLocator, UniqueSymbols, ParseIdentity, ParseLocators, UnsignedLine, Reads, ReadsSigned;
    var header, rest, n := lines[..8], lines[8..], |c.locators|;
    UnsignedLineExactly(lines[7], "locator_count", 0xFFFF_FFFF, n);
    IdentityExactly(header, c.identity, n);
    assert forall i :: 0 <= i < n ==> rest[7 * i..7 * i + 7] == lines[8 + 7 * i..8 + 7 * i + 7];
    LocatorsExactly(rest, c.locators, c.identity.size);
    assert LocatorReads(lines[8 + 7 * 0..8 + 7 * 0 + 7], c.locators[0]);
    assert lines[8] == "[[locator]]" && lines[7] == header[7] && lines[0] == "schema=1";
    assert UnsignedLine(lines[7], "locator_count", 0xFFFF_FFFF) == Some(n);
    assert ParseIdentity(header) == Some(c.identity);
    assert ParseLocators(rest, n) == Some(c.locators);
    assert Catalog(c.identity, c.locators) == c;
  }

  lemma ParsedLines(lines: seq<string>, c: Catalog)
    requires ParseLines(lines) == Some(c)
    ensures ValidShape(c) && NanosecondsInRange(c) && CatalogReads(lines, c)
  {
    hide ValidIdentity, ValidLocator, UniqueSymbols, ParseIdentity, ParseLocators, UnsignedLine,
         Reads, HeaderReads, LocatorReads;
    var header, rest, n := lines[..8], lines[8..], |c.locators|;
    IdentityInRange(header);
    CountIsLength(lines);
    UnsignedLineExactly(lines[7], "locator_count", 0xFFFF_FFFF, n);
    IdentityExactly(header, c.identity, n);
    LocatorsExactly(rest, c.locators, c.identity.size);
    forall i | 0 <= i < n ensures lines[8 + 7 * i..8 + 7 * i + 7] == rest[7 * i..7 * i + 7] {
    }
  }

  // --------------------------------------------------------- as the source does it

  /** What `splitLines` returns when `lines` are cut off and `rest` is left. */
  function SplitRest(lines: seq<string>, rest: string): seq<string> {
    if rest == [] || EndsLine(rest) then lines + Split(rest) else []
  }

  lemma SplitStep(lines: seq<string>, rest: string, n: nat)
    requires rest != [] && n == LineEnd(rest) && n < |rest|
    ensures SplitRest(lines, rest) == SplitRest(lines + [rest[..n]], rest[n + 1..])
  {
    CutLine(rest, n);
    SplitCut(lines, rest[..n], rest[n + 1..], rest);
  }

  lemma SplitCut(lines: seq<string>, line: string, tail: string, rest: string)
    requires IsLine(line) && rest == line + ("\n" + tail)
    ensures SplitRest(lines, rest) == SplitRest(lines + [line], tail)
  {
    SplitOfCut(line, tail);
    EndsLineOfCut(line, tail);
    AppendThen(lines, line, Split(tail));
  }

  lemma AppendThen(lines: seq<string>, line: string, more: seq<string>)
    ensures lines + ([line] + more) == (lines + [line]) + more
  {
  }

  /** `splitLines`: no lines at all when the last one is not terminated. */
  method SplitLines(body: string) returns (lines: seq<string>)
    ensures lines == if body == [] || EndsLine(body) then Split(body) else []
  {
    lines := [];
    var rest := body;
    assert [] + Split(body) == Split(body);
    while rest != []
      invariant SplitRest(lines, rest) == SplitRest([], body)
      decreases |rest|
    {
      var n := LineEnd(rest);
      if n == |rest| {
        NoEndNoLine(rest);
        return [];
      }
      SplitStep(lines, rest, n);
      lines := lines + [rest[..n]];
      rest := rest[n + 1..];
    }
    assert lines + [] == lines;
  }

  lemma NoEndNoLine(s: string)
    requires s != [] && LineEnd(s) == |s|
    ensures !EndsLine(s)
  {
    assert s[..|s|] == s;
  }

  /** One turn of the printing loop: a block moves from the locators to the text. */
  lemma BlockStep(body: string, left: seq<Locator>)
    requires left != []
    ensures body + Join(AllLocatorLines(left))
         == (body + Join(LocatorLines(left[0]))) + Join(AllLocatorLines(left[1..]))
  {
    hide LocatorLines, Join;
    JoinOfConcat(LocatorLines(left[0]), AllLocatorLines(left[1..]));
  }

  lemma BlockEnds(body: string)
    ensures body + Join(AllLocatorLines([])) == body
  {
  }

  /** `serialize`: the header, then one block of lines for every locator. */
  method SerializeLoop(c: Catalog) returns (body: string)
    ensures body == Serialize(c)
  {
    if !ValidShape(c) {
      return "";
    }
    hide HeaderLines, LocatorLines, ValidShape, Join;
    var header := HeaderLines(c.identity, |c.locators|);
    body := Join(header);
    ghost var whole := Join(CatalogLines(c));
    JoinOfConcat(header, AllLocatorLines(c.locators));
    var left := c.locators;
    while left != []
      invariant body + Join(AllLocatorLines(left)) == whole
      decreases |left|
    {
      var block := Join(LocatorLines(left[0]));
      BlockStep(body, left);
      body := body + block;
      left := left[1..];
    }
    BlockEnds(body);
    if |body| > MAXIMUM_BODY_SIZE {
      return "";
    }
  }

  /** `parse`, which walks the lines of the locators with a cursor. */
  method ParseLoop(body: string) returns (r: Option<Catalog>)
    ensures r == Parse(body)
  {
    if body == [] || MAXIMUM_BODY_SIZE < |body| || !EndsLine(body) {
      return None;
    }
    var lines := SplitLines(body);
    if |lines| < 9 || lines[0] != SCHEMA_LINE || lines[8] == [] {
      return None;
    }
    var id := ParseIdentity(lines[..8]);
    var count := UnsignedLine(lines[7], "locator_count", 0xFFFF_FFFF);
    if id == None || count == None || count.value == 0 || MAXIMUM_LOCATORS < count.value {
      return None;
    }
    var locators := ParseLocatorsLoop(lines[8..], count.value);
    if locators == None {
      return None;
    }
    var c := Catalog(id.value, locators.value);
    return if ValidShape(c) then Some(c) else None;
  }

  method ParseLocatorsLoop(lines: seq<string>, count: nat) returns (r: Option<seq<Locator>>)
    ensures r == ParseLocators(lines, count)
  {
    hide ParseLocator;
    var result: seq<Locator> := [];
    var rest := lines;
    var index := 0;
    AppendedEnds([], ParseLocators(lines, count));
    while index < count
      invariant index <= count
      invariant ParseLocators(lines, count) == Appended(result, ParseLocators(rest, count - index))
    {
      if |rest| < 7 {
        return None;
      }
      var l := ParseLocator(rest[..7]);
      if l == None {
        return None;
      }
      AppendedStep(result, l.value, ParseLocators(rest[7..], count - index - 1));
      result := result + [l.value];
      rest := rest[7..];
      index := index + 1;
    }
    AppendedEnds(result, None);
    return if rest == [] then Some(result) else None;
  }

  function Appended(done: seq<Locator>, rest: Option<seq<Locator>>): Option<seq<Locator>> {
    var r :- rest;
    Some(done + r)
  }

  lemma AppendedEnds(done: seq<Locator>, rest: Option<seq<Locator>>)
    ensures Appended([], rest) == rest
    ensures Appended(done, Some([])) == Some(done)
  {
    assert done + [] == done;
    if rest.Some? {
      assert [] + rest.value == rest.value;
    }
  }

  lemma AppendedStep(done: seq<Locator>, l: Locator, rest: Option<seq<Locator>>)
    ensures rest.Some? ==> Appended(done, Some([l] + rest.value)) == Appended(done + [l], rest)
  {
    if rest.Some? {
      assert done + ([l] + rest.value) == (done + [l]) + rest.value;
    }
  }

  // ------------------------------------------------------------------- admission

  /** The first locator of a symbol. */
  function Entry(locators: seq<Locator>, symbol: string): (found: Option<Locator>)
    ensures found.Some? ==> found.value in locators && found.value.symbol == symbol
    ensures found.None? ==> forall l :: l in locators ==> l.symbol != symbol
  {
    if locators == [] then None
    else if locators[0].symbol == symbol then Some(locators[0])
    else Entry(locators[1..], symbol)
  }

  function CompiledEntry(compiled: seq<CompiledLocator>, symbol: string): (found: Option<CompiledLocator>)
    ensures found.Some? ==> found.value in compiled && found.value.symbol == symbol
    ensures found.None? ==> forall l :: l in compiled ==> l.symbol != symbol
  {
    if compiled == [] then None
    else if compiled[0].symbol == symbol then Some(compiled[0])
    else CompiledEntry(compiled[1..], symbol)
  }

  predicate PolicyMatches(c: Catalog, compiled: seq<CompiledLocator>) {
    && ValidShape(c)
    && |c.locators| <= |compiled|
    && (forall i :: 0 <= i < |c.locators| ==>
          var l, entry := c.locators[i], CompiledEntry(compiled, c.locators[i].symbol);
          entry.Some? && entry.value.required == l.required
          && entry.value.signature == l.signature && entry.value.followMode == l.followMode)
    && (forall i :: 0 <= i < |compiled| && compiled[i].required ==> Entry(c.locators, compiled[i].symbol).Some?)
  }

  predicate TargetRvaMatches(followMode: string, matchRva: nat, cachedTargetRva: nat, derivedTargetRva: nat) {
    && IsFollowMode(followMode)
    && (followMode == "None" ==> derivedTargetRva == matchRva)
    && cachedTargetRva == derivedTargetRva
  }
}
