/** The Python generator, gen.py: its name translators, its decoding of
    ledger-entry values, its field flags, and the five sections it writes.
    Where gen.py raises an exception the model returns `None`. */
module PyGen {
  import opened Optional
  import opened Text
  import opened Numerals
  import opened Records
  import opened Names
  import opened Fields
  import ResultCodes

  // ---------------------------------------------------------------------
  // Name translation
  // ---------------------------------------------------------------------

  /** `CAPITALIZATION_EXCEPTIONS`. */
  const Exceptions: Table := map[
    "NFTOKEN" := "NFToken",
    "URITOKEN" := "URIToken",
    "URI" := "URI",
    "UNL" := "UNL",
    "XCHAIN" := "XChain",
    "DID" := "DID",
    "ID" := "ID",
    "AMM" := "AMM"]

  /** The names `translate` maps by exact match. */
  const Overrides: set<string> := {
    "OBJECT", "ARRAY", "ACCOUNT", "LEDGERENTRY", "NOTPRESENT",
    "PATHSET", "VL", "DIR_NODE", "PAYCHAN"}

  /** `translate`. `re.match` anchors the `UINT` test at the start of the
      name only, and `str.replace` rewrites every `UINT`. */
  function CodecName(inp: string): string {
    if StartsWith(inp, "UINT") then
      if Contains(inp, "256") || Contains(inp, "160") || Contains(inp, "128")
      then ReplaceAll(inp, "UINT", "Hash")
      else ReplaceAll(inp, "UINT", "UInt")
    else if inp == "OBJECT" || inp == "ARRAY" then "ST" + TitleCase(inp)
    else if inp == "ACCOUNT" then "AccountID"
    else if inp == "LEDGERENTRY" then "LedgerEntry"
    else if inp == "NOTPRESENT" then "NotPresent"
    else if inp == "PATHSET" then "PathSet"
    else if inp == "VL" then "Blob"
    else if inp == "DIR_NODE" then "DirectoryNode"
    else if inp == "PAYCHAN" then "PayChannel"
    else CaseSegments(Exceptions, Split(inp, '_'))
  }

  method Translate(inp: string) returns (r: string)
    ensures r == CodecName(inp)
  {
    if StartsWith(inp, "UINT") {
      if Contains(inp, "256") || Contains(inp, "160") || Contains(inp, "128") {
        return ReplaceAll(inp, "UINT", "Hash");
      }
      return ReplaceAll(inp, "UINT", "UInt");
    }
    if inp == "OBJECT" || inp == "ARRAY" {
      return "ST" + TitleCase(inp);
    }
    if inp == "ACCOUNT" {
      return "AccountID";
    }
    if inp == "LEDGERENTRY" {
      return "LedgerEntry";
    }
    if inp == "NOTPRESENT" {
      return "NotPresent";
    }
    if inp == "PATHSET" {
      return "PathSet";
    }
    if inp == "VL" {
      return "Blob";
    }
    if inp == "DIR_NODE" {
      return "DirectoryNode";
    }
    if inp == "PAYCHAN" {
      return "PayChannel";
    }
    var parts := Split(inp, '_');
    r := JoinCased(Exceptions, parts);
  }

  /** Every exception only changes the letter case of its key. */
  lemma ExceptionsAreCaseVariants()
    ensures CaseVariantTable(Exceptions)
  {
  }

  /** A name that starts with `UINT` has every `UINT` replaced, by `Hash`
      when it mentions a 256-, 160- or 128-bit width and by `UInt`
      otherwise, and keeps its length. */
  lemma CodecNameUint(inp: string)
    requires StartsWith(inp, "UINT")
    ensures var wide := Contains(inp, "256") || Contains(inp, "160") || Contains(inp, "128");
      CodecName(inp) == ReplaceAll(inp, "UINT", if wide then "Hash" else "UInt")
    ensures |CodecName(inp)| == |inp|
    ensures Count(CodecName(inp), "UINT") == 0
  {
    var wide := Contains(inp, "256") || Contains(inp, "160") || Contains(inp, "128");
    var q := if wide then "Hash" else "UInt";
    ReplaceKeepsLength(inp, "UINT", q);
    ReplaceAllRemoves(inp, q);
  }

  /** Replacing every `UINT` by `Hash` or `UInt` leaves no `UINT`
      behind. */
  lemma {:induction false} ReplaceAllRemoves(s: string, q: string)
    requires q == "Hash" || q == "UInt"
    ensures Count(ReplaceAll(s, "UINT", q), "UINT") == 0
  {
    if s == [] {
    } else if StartsWith(s, "UINT") {
      ReplaceAllRemoves(s[4..], q);
      var rest := ReplaceAll(s[4..], "UINT", q);
      CountAfterWord(q, rest);
    } else {
      ReplaceAllRemoves(s[1..], q);
      var rest := ReplaceAll(s[1..], "UINT", q);
      var r := [s[0]] + rest;
      assert r[1..] == rest;
      if StartsWith(r, "UINT") {
        assert rest[..3] == r[..4][1..];
        ReplacedPrefix(s[1..], "INT", q);
        assert false;
      }
    }
  }

  /** `Hash` or `UInt` in front of a text adds no `UINT` to it. */
  lemma CountAfterWord(q: string, rest: string)
    requires q == "Hash" || q == "UInt"
    ensures Count(q + rest, "UINT") == Count(rest, "UINT")
  {
    var r := q + rest;
    assert r[..4] == q && q[2] != "UINT"[2];
    NotUintPrefix(r[1..]);
    NotUintPrefix(r[1..][1..]);
    NotUintPrefix(r[1..][1..][1..]);
    assert r[1..][1..][1..][1..] == rest;
    assert Count(r, "UINT") == Count(r[1..], "UINT");
    assert Count(r[1..], "UINT") == Count(r[1..][1..], "UINT");
    assert Count(r[1..][1..], "UINT") == Count(r[1..][1..][1..], "UINT");
    assert Count(r[1..][1..][1..], "UINT") == Count(rest, "UINT");
  }

  /** A name whose first letter is not `U` does not start with `UINT`. */
  lemma NotUintPrefix(x: string)
    requires x != [] && x[0] != 'U'
    ensures !StartsWith(x, "UINT")
  {
    if |x| >= 4 {
      assert x[..4][0] == x[0];
    }
  }

  /** Text without `H` or `U` at the front of a replaced string was at the
      front of the original. */
  lemma {:induction false} ReplacedPrefix(t: string, w: string, q: string)
    requires q == "Hash" || q == "UInt"
    requires forall i :: 0 <= i < |w| ==> w[i] != 'H' && w[i] != 'U'
    requires StartsWith(ReplaceAll(t, "UINT", q), w)
    ensures StartsWith(t, w)
  {
    if w != [] {
      var r := ReplaceAll(t, "UINT", q);
      assert r[0] == w[0];
      assert !StartsWith(t, "UINT");
      assert r[1..] == ReplaceAll(t[1..], "UINT", q);
      assert StartsWith(r[1..], w[1..]);
      ReplacedPrefix(t[1..], w[1..], q);
      assert t[..|w|] == [t[0]] + t[1..][..|w| - 1];
    }
  }

  /** The exact-match overrides of container types. */
  lemma CodecNameContainerOverrides()
    ensures CodecName("OBJECT") == "STObject"
    ensures CodecName("ARRAY") == "STArray"
    ensures CodecName("LEDGERENTRY") == "LedgerEntry"
  {
    NotUintPrefix("OBJECT");
    NotUintPrefix("ARRAY");
    NotUintPrefix("LEDGERENTRY");
  }

  /** The exact-match overrides of the remaining serialized types. */
  lemma CodecNameTypeOverrides()
    ensures CodecName("ACCOUNT") == "AccountID"
    ensures CodecName("VL") == "Blob"
    ensures CodecName("NOTPRESENT") == "NotPresent"
    ensures CodecName("PATHSET") == "PathSet"
  {
    NotUintPrefix("ACCOUNT");
    NotUintPrefix("VL");
    NotUintPrefix("NOTPRESENT");
    NotUintPrefix("PATHSET");
  }

  /** The exact-match overrides of ledger-entry names. */
  lemma CodecNameEntryOverrides()
    ensures CodecName("DIR_NODE") == "DirectoryNode"
    ensures CodecName("PAYCHAN") == "PayChannel"
  {
    NotUintPrefix("DIR_NODE");
    NotUintPrefix("PAYCHAN");
  }

  /** `AMM` has no override here: it reaches `AMM` through the table. */
  lemma CodecNameAmm()
    ensures CodecName("AMM") == "AMM"
  {
    NotUintPrefix("AMM");
    SplitNoSeparator("AMM", '_');
  }

  /** `URI_TOKEN` has no override here: its segments reach `URIToken`
      through the table's `URI` entry. */
  lemma CodecNameUriToken()
    ensures CodecName("URI_TOKEN") == "URIToken"
  {
    assert "URI_TOKEN"[..4][1] != "UINT"[1];
    CodecNameDefault("URI_TOKEN");
    UriTokenSegments();
    UriTokenCased();
  }

  lemma UriTokenSegments()
    ensures Split("URI_TOKEN", '_') == ["URI", "TOKEN"]
  {
    assert "URI_TOKEN" == "URI" + ['_'] + "TOKEN" by {}
    SplitTwo("URI", "TOKEN", '_');
  }

  lemma UriTokenCased()
    ensures CaseSegments(Exceptions, ["URI", "TOKEN"]) == "URIToken"
  {
    assert ["URI", "TOKEN"][1..] == ["TOKEN"];
    assert CaseSegment(Exceptions, "TOKEN") == "Token";
  }

  /** The default case: the result has no underscore and spells the name's
      letters in order, with only their case changed. */
  lemma CodecNameDefault(inp: string)
    requires !StartsWith(inp, "UINT") && inp !in Overrides
    ensures CodecName(inp) == CaseSegments(Exceptions, Split(inp, '_'))
    ensures '_' !in CodecName(inp)
    ensures SameUpToCase(CodecName(inp), Remove(inp, '_'))
  {
    ExceptionsAreCaseVariants();
    CaseSplitShape(Exceptions, inp);
  }

  // ---------------------------------------------------------------------
  // Serialized types
  // ---------------------------------------------------------------------

  /** The `STI_` declarations used: the `STYPE(STI_X, n)` list when SField.h
      has one, otherwise the `STI_X = n` enumerators. */
  function TypeDeclarations(stypes: seq<Declaration>, stis: seq<Declaration>): (r: seq<Declaration>)
    ensures |stypes| > 0 ==> r == stypes
    ensures |stypes| == 0 ==> r == stis
  {
    if |stypes| == 0 then stis else stypes
  }

  /** TYPES: `Done`, then each selected declaration translated. */
  function Types(stypes: seq<Declaration>, stis: seq<Declaration>): seq<Entry> {
    Section("Done", TypeDeclarations(stypes, stis), CodecName)
  }

  // ---------------------------------------------------------------------
  // Ledger entry types
  // ---------------------------------------------------------------------

  /** The characters `int` strips around its argument: the C white space
      `\t`..`\r` and the space among ASCII characters (U+001C..U+001F are
      not among them), and the Unicode white space above U+007E. */
  predicate IsSpace(c: char) {
    ('\t' <= c <= '\r') || c == ' ' || c == '\U{85}' || c == '\U{A0}'
    || c == '\U{1680}' || ('\U{2000}' <= c <= '\U{200A}') || c == '\U{2028}' || c == '\U{2029}'
    || c == '\U{202F}' || c == '\U{205F}' || c == '\U{3000}'
  }

  predicate AllSpace(s: string) {
    forall i :: 0 <= i < |s| ==> IsSpace(s[i])
  }

  function StripEnd(s: string): string {
    if s != [] && IsSpace(s[|s| - 1]) then StripEnd(s[..|s| - 1]) else s
  }

  lemma {:induction false} StripEndSpaces(s: string, post: string)
    requires AllSpace(post) && s != [] && !IsSpace(s[|s| - 1])
    ensures StripEnd(s + post) == s
  {
    if post != [] {
      var n := |s + post|;
      assert (s + post)[..n - 1] == s + post[..|post| - 1];
      StripEndSpaces(s, post[..|post| - 1]);
    } else {
      assert s + post == s;
    }
  }

  /** The digits `int(x, 16)` accepts after the `0x` prefix: hexadecimal
      digits, each optionally preceded by a single underscore. */
  predicate HexBody(s: string) {
    && s != []
    && (forall i :: 0 <= i < |s| ==> IsHexDigit(s[i]) || s[i] == '_')
    && (forall i :: 0 <= i < |s| && s[i] == '_' ==> i + 1 < |s| && IsHexDigit(s[i + 1]))
  }

  /** `unhex`: a value starting with `0x` is parsed by `int(x, 16)`, which
      fails (`None`) unless the rest, trailing white space aside, is
      well-formed; any other value is written as captured. */
  function Unhex(x: string): (r: Option<string>)
    ensures !(|x| >= 2 && x[..2] == "0x") ==> r == Some(x)
  {
    if |x| >= 2 && x[..2] == "0x" then
      var body := StripEnd(x[2..]);
      if HexBody(body) then
        RemoveLeavesDigits(body);
        Some(DecimalString(HexValue(Remove(body, '_'))))
      else None
    else Some(x)
  }

  /** A value that does not start with `0` is written as captured. */
  lemma UnhexVerbatim(x: string)
    requires x == [] || x[0] != '0'
    ensures Unhex(x) == Some(x)
  {
    if |x| >= 2 {
      assert x[..2][0] == x[0];
    }
  }

  /** Deleting the underscores from digits and underscores leaves only
      digits. */
  lemma {:induction false} RemoveLeavesDigits(s: string)
    requires forall i :: 0 <= i < |s| ==> IsHexDigit(s[i]) || s[i] == '_'
    ensures AllHexDigits(Remove(s, '_'))
  {
    if s != [] {
      assert IsHexDigit(s[0]) || s[0] == '_';
      RemoveLeavesDigits(s[1..]);
    }
  }

  /** A hexadecimal literal followed by white space is written as its
      value; leading zeros and either letter case are accepted. */
  lemma UnhexHex(d: string, post: string)
    requires d != [] && AllHexDigits(d)
    requires AllSpace(post)
    ensures Unhex("0x" + d + post) == Some(DecimalString(HexValue(d)))
  {
    var x := "0x" + d + post;
    assert x[..2] == "0x";
    assert x[2..] == d + post;
    StripEndSpaces(d, post);
    assert HexBody(d);
    assert forall i :: 0 <= i < |d| ==> d[i] != '_';
    RemoveAbsent(d, '_');
  }

  /** `0x` with nothing, or with a character that is neither a digit, an
      underscore nor white space, makes `int` raise. */
  lemma UnhexRejects(c: char, rest: string)
    requires !IsHexDigit(c) && c != '_' && !IsSpace(c)
    ensures Unhex("0x") == None
    ensures Unhex("0x" + [c] + rest) == None
  {
    var x := "0x" + [c] + rest;
    assert x[..2] == "0x" && x[2..] == [c] + rest;
    var body := StripEnd(x[2..]);
    StripEndKeepsFirst(c, rest);
    assert body[0] == c;
  }

  /** The information separators U+001C..U+001F are not white space to
      `int`: one after the digits of a literal makes it raise, even with
      white space after it. */
  lemma UnhexRejectsSeparator(d: string, c: char, post: string)
    requires d != [] && AllHexDigits(d)
    requires '\U{1C}' <= c <= '\U{1F}'
    requires AllSpace(post)
    ensures Unhex("0x" + d + [c] + post) == None
  {
    var x := "0x" + d + [c] + post;
    assert x[..2] == "0x";
    assert x[2..] == (d + [c]) + post;
    StripEndSpaces(d + [c], post);
    var body := d + [c];
    assert body[|body| - 1] == c;
  }

  /** Stripping trailing white space keeps a first character that is not
      white space. */
  lemma {:induction false} StripEndKeepsFirst(c: char, rest: string)
    requires !IsSpace(c)
    ensures var s := StripEnd([c] + rest); s != [] && s[0] == c
  {
    var s := [c] + rest;
    if rest != [] && IsSpace(s[|s| - 1]) {
      assert s[..|s| - 1] == [c] + rest[..|rest| - 1];
      StripEndKeepsFirst(c, rest[..|rest| - 1]);
    }
  }

  /** The value written for a matched `lt` declaration, `None` when `unhex`
      raises. */
  function LedgerValue(h: LedgerHit): (r: Option<string>)
    ensures h.name == "ANY" ==> r == Some("-3")
    ensures h.name == "CHILD" ==> r == Some("-2")
    ensures h.name != "ANY" && h.name != "CHILD" ==> r == Unhex(h.value)
  {
    if h.name == "ANY" then Some("-3")
    else if h.name == "CHILD" then Some("-2")
    else Unhex(h.value)
  }

  predicate Decodable(h: LedgerHit) {
    LedgerValue(h).Some?
  }

  /** The decoded value of a match whose value decodes. */
  function DecodedValue(h: LedgerHit): string {
    match LedgerValue(h)
    case Some(v) => v
    case None => ""
  }

  /** LEDGER_ENTRY_TYPES, or `None` when some value makes `unhex` raise. */
  function LedgerEntryTypes(hits: seq<LedgerHit>): (r: Option<seq<LedgerEntry>>)
    ensures r.Some? <==> forall i :: 0 <= i < |hits| ==> Decodable(hits[i])
    ensures r.Some? ==> r.value == LedgerSection(hits, CodecName, DecodedValue)
  {
    if forall i :: 0 <= i < |hits| ==> Decodable(hits[i]) then Some(LedgerSection(hits, CodecName, DecodedValue))
    else None
  }

  // ---------------------------------------------------------------------
  // Fields
  // ---------------------------------------------------------------------

  /** The type tags that are neither serialized nor signed. */
  predicate IsNotSerializedTag(tag: string) {
    tag == "LEDGERENTRY" || tag == "TRANSACTION" || tag == "VALIDATION" || tag == "METADATA"
  }

  /** `isSerialized`. */
  predicate IsSerialized(tag: string) {
    !IsNotSerializedTag(tag)
  }

  /** `isSigningField`: a `notSigning` marker or a tag that is not
      serialized. */
  predicate IsSigningField(tag: string, marker: string) {
    marker != "notSigning" && !IsNotSerializedTag(tag)
  }

  /** The descriptor written for one `CONSTRUCT_..._SFIELD` match. The
      captured number is written as nth for every type, a variable-length
      field is always serialized, and a signing field is always
      serialized. */
  function Field(h: FieldHit): (f: FieldDescriptor)
    ensures f.name == h.name && f.typeName == CodecName(h.tag)
    ensures f.nth == h.ordinal
    ensures f.isVLEncoded ==> f.isSerialized
    ensures f.isSigningField <==> f.isSerialized && h.marker != "notSigning"
  {
    FieldDescriptor(h.name, h.ordinal, IsVLEncoded(h.tag), IsSerialized(h.tag),
                    IsSigningField(h.tag, h.marker), CodecName(h.tag))
  }

  function FieldList(hits: seq<FieldHit>): seq<FieldDescriptor> {
    FieldSection(hits, Field)
  }

  // ---------------------------------------------------------------------
  // Transaction results
  // ---------------------------------------------------------------------

  /** The annotation removed from TER.h before scanning: `str.replace`
      removes every occurrence. */
  function CleanResultsText(text: string): (r: string)
    ensures |r| == |text| - Count(text, ResultCodes.Annotation) * |ResultCodes.Annotation|
    ensures Count(text, ResultCodes.Annotation) == 0 ==> r == text
  {
    ReplaceAllLength(text, ResultCodes.Annotation, "");
    if Count(text, ResultCodes.Annotation) == 0 then
      ReplaceAbsent(text, ResultCodes.Annotation, "");
      ReplaceAll(text, ResultCodes.Annotation, "")
    else ReplaceAll(text, ResultCodes.Annotation, "")
  }

  /** Every annotation is deleted: scanning stops at the first, drops it, and
      goes on with the text after it. */
  lemma CleanResultsDeletesEach(a: string, b: string)
    requires forall j :: 0 <= j < |a| ==>
      !StartsWith((a + ResultCodes.Annotation + b)[j..], ResultCodes.Annotation)
    ensures CleanResultsText(a + ResultCodes.Annotation + b) == a + CleanResultsText(b)
  {
    ReplaceAllAt(a, ResultCodes.Annotation, b, "");
    assert a + "" + CleanResultsText(b) == a + CleanResultsText(b);
  }

  // ---------------------------------------------------------------------
  // Transaction types
  // ---------------------------------------------------------------------

  /** The name after the whole-name renames and every `PAYCHAN`
      rewritten. */
  function TxPrepared(inp: string): string {
    ReplaceAll(RenamedTx(inp), "PAYCHAN", "PAYMENT_CHANNEL")
  }

  /** `translate_tx_types`: a name with an underscore goes segment by
      segment through the exceptions table or title-casing; a name without
      one is title-cased whole, without consulting the table. */
  function TxCodecName(inp: string): string {
    var name := TxPrepared(inp);
    if '_' in name then CaseSegments(Exceptions, Split(name, '_'))
    else TitleCase(name)
  }

  method TranslateTxTypes(inp: string) returns (r: string)
    ensures r == TxCodecName(inp)
  {
    var name := inp;
    if name == "REGULAR_KEY_SET" {
      name := "SET_REGULAR_KEY";
    }
    if name == "NICKNAME_SET" {
      name := "NICK_NAME_SET";
    }
    if name == "AMENDMENT" {
      name := "ENABLE_AMENDMENT";
    }
    if name == "FEE" {
      name := "SET_FEE";
    }
    if name == "SPINAL_TAP" {
      name := "TICKET_CANCEL";
    }
    if name == "HOOK_SET" {
      name := "SET_HOOK";
    }
    assert name == RenamedTx(inp);
    name := ReplaceAll(name, "PAYCHAN", "PAYMENT_CHANNEL");
    if '_' in name {
      var parts := Split(name, '_');
      r := JoinCased(Exceptions, parts);
      return;
    }
    r := TitleCase(name);
  }

  /** A transaction name has no underscore and differs from the prepared
      name without underscores only in letter case. */
  lemma TxCodecNameShape(inp: string)
    ensures '_' !in TxCodecName(inp)
    ensures SameUpToCase(TxCodecName(inp), Remove(TxPrepared(inp), '_'))
  {
    var name := TxPrepared(inp);
    if '_' in name {
      ExceptionsAreCaseVariants();
      CaseSplitShape(Exceptions, name);
    } else {
      RemoveAbsent(name, '_');
      TitleCaseSameUpToCase(name);
      SameUpToCaseUnderscore(TitleCase(name), name);
    }
  }

  function TransactionTypes(hits: seq<Declaration>): seq<Entry> {
    Section("Invalid", hits, TxCodecName)
  }

  // ---------------------------------------------------------------------
  // The document
  // ---------------------------------------------------------------------

  /** The five sections gen.py writes, or `None` when it stops with an
      exception while writing LEDGER_ENTRY_TYPES. */
  function Document(c: Captures): (d: Option<Definitions>)
    ensures d.Some? <==> forall i :: 0 <= i < |c.ledgerEntries| ==> Decodable(c.ledgerEntries[i])
  {
    match LedgerEntryTypes(c.ledgerEntries)
    case None => None
    case Some(ledger) =>
      Some(Definitions(Types(c.stypes, c.stis), ledger, FieldList(c.fields),
                       ResultCodes.Numbered(c.results), TransactionTypes(c.transactions)))
  }
}
