/** The JavaScript generator, gen.js: its name translators, its decoding of
    ledger-entry values, its field flags, and the five sections it writes. */
module JsGen {
  import opened Optional
  import opened Text
  import opened Numerals
  import opened Records
  import opened Names
  import opened Fields
  import ResultCodes

  // ---------------------------------------------------------------------
  // Name translation
  // ---------------------------------------------------------------------

  /** `capitalization_exceptions`. */
  const Exceptions: Table := map[
    "NFTOKEN" := "NFToken",
    "URITOKEN" := "URIToken",
    "UNL" := "UNL",
    "XCHAIN" := "XChain",
    "ID" := "ID",
    "AMM" := "AMM"]

  /** The names `translate` maps by exact match. */
  const Overrides: set<string> := {
    "OBJECT", "ARRAY", "AMM", "ACCOUNT", "LEDGERENTRY", "NOTPRESENT",
    "PATHSET", "VL", "DIR_NODE", "PAYCHAN", "URI_TOKEN"}

  /** `translate`: the codec's name for a rippled identifier. The `UINT`
      test is a multi-line regular expression, so it also fires on a `UINT`
      after a line break; `replace` then rewrites the first `UINT` only. */
  function CodecName(inp: string): string {
    if LineStartsWith(inp, "UINT") then
      if Contains(inp, "256") || Contains(inp, "160") || Contains(inp, "128")
      then ReplaceFirst(inp, "UINT", "Hash")
      else ReplaceFirst(inp, "UINT", "UInt")
    else if inp == "OBJECT" || inp == "ARRAY" then "ST" + TitleCase(inp)
    else if inp == "AMM" then inp
    else if inp == "ACCOUNT" then "AccountID"
    else if inp == "LEDGERENTRY" then "LedgerEntry"
    else if inp == "NOTPRESENT" then "NotPresent"
    else if inp == "PATHSET" then "PathSet"
    else if inp == "VL" then "Blob"
    else if inp == "DIR_NODE" then "DirectoryNode"
    else if inp == "PAYCHAN" then "PayChannel"
    else if inp == "URI_TOKEN" then "URIToken"
    else CaseSegments(Exceptions, Split(inp, '_'))
  }

  method Translate(inp: string) returns (r: string)
    ensures r == CodecName(inp)
  {
    if LineStartsWith(inp, "UINT") {
      if Contains(inp, "256") || Contains(inp, "160") || Contains(inp, "128") {
        return ReplaceFirst(inp, "UINT", "Hash");
      }
      return ReplaceFirst(inp, "UINT", "UInt");
    }
    if inp == "OBJECT" || inp == "ARRAY" {
      return "ST" + TitleCase(inp);
    }
    if inp == "AMM" {
      return inp;
    }
    if inp == "ACCOUNT" {
      return "AccountID";
    }
    if inp == "LEDGERENTRY" {
      return "LedgerEntry";
    }
    if inp == "NOTPRESENT" {
      return "NotPresent";
    }
    if inp == "PATHSET" {
      return "PathSet";
    }
    if inp == "VL" {
      return "Blob";
    }
    if inp == "DIR_NODE" {
      return "DirectoryNode";
    }
    if inp == "PAYCHAN" {
      return "PayChannel";
    }
    if inp == "URI_TOKEN" {
      return "URIToken";
    }
    var parts := Split(inp, '_');
    r := JoinCased(Exceptions, parts);
  }

  lemma ExceptionsAreCaseVariants()
    ensures CaseVariantTable(Exceptions)
  {
  }

  /** A name starting with `UINT` gets `Hash` in its place when it mentions
      256, 160 or 128 and `UInt` otherwise; the rest is kept, and so is the
      length. */
  lemma CodecNameUint(inp: string)
    requires StartsWith(inp, "UINT")
    ensures CodecName(inp) ==
      (if Contains(inp, "256") || Contains(inp, "160") || Contains(inp, "128")
       then "Hash" else "UInt") + inp[4..]
    ensures |CodecName(inp)| == |inp|
  {
  }

  /** A one-line name that does not start with `U` takes no `UINT` branch. */
  lemma NotLineUint(s: string)
    requires s != [] && s[0] != 'U'
    requires forall i :: 0 <= i < |s| ==> !IsLineTerminator(s[i])
    ensures !LineStartsWith(s, "UINT")
  {
  }

  /** The exact-match overrides of container types. */
  lemma CodecNameContainerOverrides()
    ensures CodecName("OBJECT") == "STObject"
    ensures CodecName("ARRAY") == "STArray"
    ensures CodecName("LEDGERENTRY") == "LedgerEntry"
  {
    NotLineUint("OBJECT");
    NotLineUint("ARRAY");
    NotLineUint("LEDGERENTRY");
  }

  /** The exact-match overrides of the remaining serialized types. */
  lemma CodecNameTypeOverrides()
    ensures CodecName("ACCOUNT") == "AccountID"
    ensures CodecName("VL") == "Blob"
    ensures CodecName("NOTPRESENT") == "NotPresent"
    ensures CodecName("PATHSET") == "PathSet"
  {
    NotLineUint("ACCOUNT");
    NotLineUint("VL");
    NotLineUint("NOTPRESENT");
    NotLineUint("PATHSET");
  }

  /** The exact-match overrides of ledger-entry names. */
  lemma CodecNameEntryOverrides()
    ensures CodecName("AMM") == "AMM"
    ensures CodecName("DIR_NODE") == "DirectoryNode"
    ensures CodecName("PAYCHAN") == "PayChannel"
  {
    NotLineUint("AMM");
    NotLineUint("DIR_NODE");
    NotLineUint("PAYCHAN");
  }

  /** `URI_TOKEN` is an override too: title-casing its segments would give
      `UriToken`, since the exceptions table has no `URI` entry. */
  lemma CodecNameUriToken()
    ensures CodecName("URI_TOKEN") == "URIToken"
  {
    assert "URI_TOKEN"[1] != "UINT"[1];
  }

  /** Past the special cases, the name is its `_`-separated segments cased
      by the exceptions table, so it has no underscore and differs from the
      input without underscores only in letter case. */
  lemma CodecNameDefault(inp: string)
    requires !LineStartsWith(inp, "UINT") && inp !in Overrides
    ensures CodecName(inp) == CaseSegments(Exceptions, Split(inp, '_'))
    ensures '_' !in CodecName(inp)
    ensures SameUpToCase(CodecName(inp), Remove(inp, '_'))
  {
    FallThrough(inp);
    ExceptionsAreCaseVariants();
    CaseSplitShape(Exceptions, inp);
  }

  /** A name no special case matches reaches the segment rule. */
  lemma FallThrough(inp: string)
    requires !LineStartsWith(inp, "UINT") && inp !in Overrides
    ensures CodecName(inp) == CaseSegments(Exceptions, Split(inp, '_'))
  {
  }

  // ---------------------------------------------------------------------
  // Ledger entry types
  // ---------------------------------------------------------------------

  /** The characters `String.prototype.trim` removes: white space and line
      terminators. */
  predicate IsSpace(c: char) {
    c == '\t' || c == '\U{B}' || c == '\U{C}' || c == ' ' || c == '\U{A0}' || c == '\U{FEFF}'
    || c == '\U{1680}' || ('\U{2000}' <= c <= '\U{200A}') || c == '\U{202F}' || c == '\U{205F}'
    || c == '\U{3000}' || IsLineTerminator(c)
  }

  predicate AllSpace(s: string) {
    forall i :: 0 <= i < |s| ==> IsSpace(s[i])
  }

  function TrimStart(s: string): string {
    if s != [] && IsSpace(s[0]) then TrimStart(s[1..]) else s
  }

  function TrimEnd(s: string): string {
    if s != [] && IsSpace(s[|s| - 1]) then TrimEnd(s[..|s| - 1]) else s
  }

  function Trim(s: string): string {
    TrimEnd(TrimStart(s))
  }

  /** What `trim` leaves neither starts nor ends with white space. */
  lemma TrimEnds(s: string)
    ensures var t := Trim(s); t == [] || (!IsSpace(t[0]) && !IsSpace(t[|t| - 1]))
  {
    TrimStartFirst(s);
    TrimEndKeepsFirst(TrimStart(s));
  }

  lemma {:induction false} TrimStartFirst(s: string)
    ensures TrimStart(s) == [] || !IsSpace(TrimStart(s)[0])
  {
    if s != [] && IsSpace(s[0]) {
      TrimStartFirst(s[1..]);
    }
  }

  /** Trimming the end leaves nothing, or a string that ends with something
      other than white space and keeps the first character. */
  lemma {:induction false} TrimEndKeepsFirst(s: string)
    ensures var t := TrimEnd(s); t == [] || (!IsSpace(t[|t| - 1]) && t[0] == s[0])
  {
    if s != [] && IsSpace(s[|s| - 1]) {
      TrimEndKeepsFirst(s[..|s| - 1]);
    }
  }

  /** Trimming removes exactly the white space around a core that neither
      starts nor ends with white space. */
  lemma {:induction false} TrimSurrounded(pre: string, core: string, post: string)
    requires AllSpace(pre) && AllSpace(post)
    requires core != [] && !IsSpace(core[0]) && !IsSpace(core[|core| - 1])
    ensures Trim(pre + core + post) == core
  {
    TrimStartSpaces(pre, core + post);
    assert pre + core + post == pre + (core + post);
    TrimEndSpaces(core, post);
  }

  lemma {:induction false} TrimStartSpaces(pre: string, s: string)
    requires AllSpace(pre) && s != [] && !IsSpace(s[0])
    ensures TrimStart(pre + s) == s
  {
    if pre != [] {
      assert (pre + s)[1..] == pre[1..] + s;
      TrimStartSpaces(pre[1..], s);
    } else {
      assert pre + s == s;
    }
  }

  lemma {:induction false} TrimEndSpaces(s: string, post: string)
    requires AllSpace(post) && s != [] && !IsSpace(s[|s| - 1])
    ensures TrimEnd(s + post) == s
  {
    if post != [] {
      var n := |s + post|;
      assert (s + post)[..n - 1] == s + post[..|post| - 1];
      TrimEndSpaces(s, post[..|post| - 1]);
    } else {
      assert s + post == s;
    }
  }

  /** `parseInt` of a trimmed string that starts with `0x`: the hexadecimal
      digits that follow, up to the first other character, or `NaN` when
      there are none. */
  function ParseHex(t: string): string
    requires |t| >= 2
  {
    var n := HexRun(t[2..]);
    if n == 0 then "NaN" else DecimalString(HexValue(t[2..][..n]))
  }

  /** `unhex`: the token written for a captured ledger-entry value. It is
      `NaN`, a decimal numeral, or the trimmed capture itself, which is what
      any value is written as unless it starts with `0x` or is a quote and
      two more characters; in every case it neither starts nor ends with
      white space. */
  function Unhex(x: string): (r: string)
    ensures r == "NaN" || r == Trim(x) || (r != [] && forall i :: 0 <= i < |r| ==> IsDigit(r[i]))
    ensures var t := Trim(x); !(|t| >= 2 && t[..2] == "0x") && !(|t| == 3 && t[0] == '\'') ==> r == t
    ensures r != [] ==> !IsSpace(r[0]) && !IsSpace(r[|r| - 1])
  {
    var t := Trim(x);
    TrimEnds(x);
    if |t| >= 2 && t[..2] == "0x" then ParseHex(t)
    else if |t| >= 1 && t[..1] == "'" && |t| == 3 then DecimalString(t[1] as int)
    else t
  }

  /** `parseInt` reads the digits of a hexadecimal literal up to the first
      character that is not one; leading zeros and either letter case are
      accepted. */
  lemma ParseHexLiteral(d: string, rest: string)
    requires d != [] && AllHexDigits(d)
    requires rest != [] ==> !IsHexDigit(rest[0])
    ensures ParseHex("0x" + d + rest) == DecimalString(HexValue(d))
  {
    var t := "0x" + d + rest;
    assert t[2..] == d + rest;
    HexRunOfDigits(d, rest);
    assert t[2..][..|d|] == d;
  }

  /** A hexadecimal literal, with white space around it and anything after its
      digits that does not start with a digit, is written as its value. */
  lemma UnhexHex(d: string, pre: string, rest: string, post: string)
    requires d != [] && AllHexDigits(d)
    requires AllSpace(pre) && AllSpace(post)
    requires rest != [] ==> !IsHexDigit(rest[0]) && !IsSpace(rest[|rest| - 1])
    ensures Unhex(pre + "0x" + d + rest + post) == DecimalString(HexValue(d))
  {
    var core := "0x" + d + rest;
    assert pre + "0x" + d + rest + post == pre + core + post;
    if rest == [] {
      assert core[|core| - 1] == d[|d| - 1];
    } else {
      assert core[|core| - 1] == rest[|rest| - 1];
    }
    TrimSurrounded(pre, core, post);
    assert core[..2] == "0x";
    ParseHexLiteral(d, rest);
  }

  /** A bare hexadecimal literal is written as its value. */
  lemma UnhexBareHex(d: string)
    requires d != [] && AllHexDigits(d)
    ensures Unhex("0x" + d) == DecimalString(HexValue(d))
  {
    var t := "0x" + d;
    assert t[|t| - 1] == d[|d| - 1];
    assert Trim(t) == t;
    assert t[..2] == "0x" && t[2..] == d;
    HexRunOfDigits(d, []);
    assert d + [] == d;
    assert t[2..][..|d|] == d;
  }

  /** A character literal is written as the code of its character. */
  lemma UnhexCharLiteral(c: char, pre: string, post: string)
    requires AllSpace(pre) && AllSpace(post)
    ensures Unhex(pre + ['\'', c, '\''] + post) == DecimalString(c as int)
  {
    TrimSurrounded(pre, ['\'', c, '\''], post);
  }

  /** A decimal literal is written as it is, white space aside. */
  lemma UnhexDecimal(s: string, pre: string, post: string)
    requires s != [] && forall i :: 0 <= i < |s| ==> IsDigit(s[i])
    requires AllSpace(pre) && AllSpace(post)
    ensures Unhex(pre + s + post) == s
  {
    TrimSurrounded(pre, s, post);
    if |s| >= 2 {
      assert IsDigit(s[1]);
    }
  }

  /** The value written for a matched `lt` declaration: `ANY` and `CHILD`
      are fixed, whatever was captured. */
  function LedgerValue(h: LedgerHit): (r: string)
    ensures h.name == "ANY" ==> r == "-3"
    ensures h.name == "CHILD" ==> r == "-2"
    ensures h.name != "ANY" && h.name != "CHILD" ==> r == Unhex(h.value)
  {
    if h.name == "ANY" then "-3"
    else if h.name == "CHILD" then "-2"
    else Unhex(h.value)
  }

  function LedgerEntryTypes(hits: seq<LedgerHit>): seq<LedgerEntry> {
    LedgerSection(hits, CodecName, LedgerValue)
  }

  // ---------------------------------------------------------------------
  // Serialized types
  // ---------------------------------------------------------------------

  /** TYPES: `Done`, then each `STI_X = n` match translated. */
  function Types(hits: seq<Declaration>): seq<Entry> {
    Section("Done", hits, CodecName)
  }

  // ---------------------------------------------------------------------
  // Fields
  // ---------------------------------------------------------------------

  /** The type tags whose fields `isOne` numbers 1. */
  predicate IsSingleSlot(tag: string) {
    tag == "LEDGERENTRY" || tag == "TRANSACTION" || tag == "VALIDATION" || tag == "METADATA"
  }

  /** `isOne`. */
  function Nth(tag: string, ordinal: nat): int {
    if IsSingleSlot(tag) then 1 else ordinal
  }

  /** `isSerialized`. */
  predicate IsSerialized(tag: string) {
    !(tag == "LEDGERENTRY" || tag == "TRANSACTION" || tag == "VALIDATION")
  }

  /** `isSigningField`, applied to the captured marker. */
  predicate IsSigningField(marker: string) {
    marker != "notSigning"
  }

  /** The descriptor written for one `CONSTRUCT_..._SFIELD` match. A
      variable-length field is always serialized, a field that is not
      serialized always has nth 1, and signing depends on the marker alone. */
  function Field(h: FieldHit): (f: FieldDescriptor)
    ensures f.name == h.name && f.typeName == CodecName(h.tag)
    ensures f.isVLEncoded ==> f.isSerialized
    ensures !f.isSerialized ==> f.nth == 1
    ensures f.nth != h.ordinal ==> f.nth == 1 && IsSingleSlot(h.tag)
    ensures f.isSigningField <==> h.marker != "notSigning"
    ensures h.tag == "LEDGERENTRY" ==> f.nth == 1 && !f.isSerialized
  {
    FieldDescriptor(h.name, Nth(h.tag, h.ordinal), IsVLEncoded(h.tag), IsSerialized(h.tag),
                    IsSigningField(h.marker), CodecName(h.tag))
  }

  function FieldList(hits: seq<FieldHit>): seq<FieldDescriptor> {
    FieldSection(hits, Field)
  }

  // ---------------------------------------------------------------------
  // Transaction results
  // ---------------------------------------------------------------------

  /** The annotation removed from TER.h before scanning: `replace` with a
      string pattern removes its first occurrence only. */
  function CleanResultsText(text: string): (r: string)
    ensures |r| == |text| - (if Count(text, ResultCodes.Annotation) == 0 then 0 else |ResultCodes.Annotation|)
    ensures Count(text, ResultCodes.Annotation) == 0 ==> r == text
  {
    ReplaceFirstLength(text, ResultCodes.Annotation, "");
    if Count(text, ResultCodes.Annotation) == 0 then
      ReplaceAbsent(text, ResultCodes.Annotation, "");
      ReplaceFirst(text, ResultCodes.Annotation, "")
    else ReplaceFirst(text, ResultCodes.Annotation, "")
  }

  /** The annotation deleted is the leftmost one: the text on either side of
      it is kept, later annotations included. */
  lemma CleanResultsDeletesFirst(a: string, b: string)
    requires forall j :: 0 <= j < |a| ==>
      !StartsWith((a + ResultCodes.Annotation + b)[j..], ResultCodes.Annotation)
    ensures CleanResultsText(a + ResultCodes.Annotation + b) == a + b
  {
    ReplaceFirstAt(a, ResultCodes.Annotation, b, "");
    assert a + "" + b == a + b;
  }

  // ---------------------------------------------------------------------
  // Transaction types
  // ---------------------------------------------------------------------

  /** The name after the whole-name renames and the first `PAYCHAN`
      rewritten. */
  function TxPrepared(inp: string): string {
    ReplaceFirst(RenamedTx(inp), "PAYCHAN", "PAYMENT_CHANNEL")
  }

  /** `translate_tx_names`: every segment, even a lone one, goes through the
      exceptions table or title-casing. */
  function TxCodecName(inp: string): string {
    CaseSegments(Exceptions, Split(TxPrepared(inp), '_'))
  }

  method TranslateTxNames(inp: string) returns (r: string)
    ensures r == TxCodecName(inp)
  {
    var name := inp;
    if name == "REGULAR_KEY_SET" {
      name := "SET_REGULAR_KEY";
    }
    if name == "NICKNAME_SET" {
      name := "NICK_NAME_SET";
    }
    if name == "AMENDMENT" {
      name := "ENABLE_AMENDMENT";
    }
    if name == "FEE" {
      name := "SET_FEE";
    }
    if name == "SPINAL_TAP" {
      name := "TICKET_CANCEL";
    }
    if name == "HOOK_SET" {
      name := "SET_HOOK";
    }
    assert name == RenamedTx(inp);
    name := ReplaceFirst(name, "PAYCHAN", "PAYMENT_CHANNEL");
    var parts := Split(name, '_');
    r := JoinCased(Exceptions, parts);
  }

  /** A transaction name has no underscore and differs from the prepared
      name without underscores only in letter case. */
  lemma TxCodecNameShape(inp: string)
    ensures '_' !in TxCodecName(inp)
    ensures SameUpToCase(TxCodecName(inp), Remove(TxPrepared(inp), '_'))
  {
    ExceptionsAreCaseVariants();
    CaseSplitShape(Exceptions, TxPrepared(inp));
  }

  /** TRANSACTION_TYPES: `Invalid`, then each `tt` match translated. */
  function TransactionTypes(hits: seq<Declaration>): seq<Entry> {
    Section("Invalid", hits, TxCodecName)
  }

  // ---------------------------------------------------------------------
  // The document
  // ---------------------------------------------------------------------

  /** The five sections gen.js writes: each sentinel, or the legacy fields,
      followed by one member per match, in source order, each keeping its
      match's number or name. */
  function Document(c: Captures): (d: Definitions)
    ensures |d.types| == |c.stis| + 1 && |d.ledgerEntryTypes| == |c.ledgerEntries| + 1
    ensures |d.fields| == 8 + |c.fields| && d.fields[..8] == LegacyFields()
    ensures |d.transactionResults| == |c.results| && |d.transactionTypes| == |c.transactions| + 1
    ensures d.types[0] == Entry("Done", -1) && d.ledgerEntryTypes[0] == LedgerEntry("Invalid", "-1")
    ensures d.transactionTypes[0] == Entry("Invalid", -1)
    ensures forall i :: 0 <= i < |c.stis| ==> d.types[i + 1] == Entry(CodecName(c.stis[i].name), c.stis[i].id)
    ensures forall i :: 0 <= i < |c.ledgerEntries| ==>
      d.ledgerEntryTypes[i + 1] == LedgerEntry(CodecName(c.ledgerEntries[i].name), LedgerValue(c.ledgerEntries[i]))
    ensures forall i :: 0 <= i < |c.fields| ==> d.fields[8 + i] == Field(c.fields[i])
    ensures d.transactionResults == ResultCodes.Numbered(c.results)
    ensures forall i :: 0 <= i < |c.transactions| ==>
      d.transactionTypes[i + 1] == Entry(TxCodecName(c.transactions[i].name), c.transactions[i].id)
  {
    Definitions(Types(c.stis), LedgerEntryTypes(c.ledgerEntries), FieldList(c.fields),
                ResultCodes.Numbered(c.results), TransactionTypes(c.transactions))
  }
}
