/** The naming rule both translators share once their special cases are
    past: split on `_`, write each segment as the capitalization-exceptions
    table says or else title-cased, and concatenate. The table itself differs
    between the two scripts and is a parameter here. */
module Names {
  import opened Text

  type Table = map<string, string>

  /** One segment: its table entry when it has one, else title-cased. */
  function CaseSegment(table: Table, part: string): string {
    if part in table then table[part] else TitleCase(part)
  }

  /** The segments, each cased, concatenated in order. */
  function CaseSegments(table: Table, parts: seq<string>): string {
    if parts == [] then [] else CaseSegment(table, parts[0]) + CaseSegments(table, parts[1..])
  }

  lemma {:induction false} CaseSegmentsAppend(table: Table, parts: seq<string>, part: string)
    ensures CaseSegments(table, parts + [part]) == CaseSegments(table, parts) + CaseSegment(table, part)
  {
    if parts != [] {
      assert (parts + [part])[1..] == parts[1..] + [part];
      CaseSegmentsAppend(table, parts[1..], part);
    }
  }

  /** The `result += ...` loop over the parts of a split name. */
  method JoinCased(table: Table, parts: seq<string>) returns (result: string)
    ensures result == CaseSegments(table, parts)
  {
    result := "";
    var i := 0;
    while i < |parts|
      invariant 0 <= i <= |parts|
      invariant result == CaseSegments(table, parts[..i])
    {
      CaseSegmentsAppend(table, parts[..i], parts[i]);
      assert parts[..i + 1] == parts[..i] + [parts[i]];
      result := result + CaseSegment(table, parts[i]);
      i := i + 1;
    }
    assert parts[..i] == parts;
  }

  /** Every value of the table is its key with some letters re-cased. */
  predicate CaseVariantTable(table: Table) {
    forall k :: k in table ==> SameUpToCase(table[k], k)
  }

  /** With such a table, casing segments changes only letter case. */
  lemma {:induction false} CaseSegmentsSameUpToCase(table: Table, parts: seq<string>)
    requires CaseVariantTable(table)
    ensures SameUpToCase(CaseSegments(table, parts), Concat(parts))
  {
    if parts != [] {
      TitleCaseSameUpToCase(parts[0]);
      CaseSegmentsSameUpToCase(table, parts[1..]);
      SameUpToCaseConcat(CaseSegment(table, parts[0]), parts[0], CaseSegments(table, parts[1..]), Concat(parts[1..]));
    }
  }

  /** Splitting on `_` and casing the segments drops every underscore and
      otherwise changes only letter case. */
  lemma CaseSplitShape(table: Table, s: string)
    requires CaseVariantTable(table)
    ensures '_' !in CaseSegments(table, Split(s, '_'))
    ensures SameUpToCase(CaseSegments(table, Split(s, '_')), Remove(s, '_'))
  {
    SplitParts(s, '_');
    CaseSegmentsSameUpToCase(table, Split(s, '_'));
    SameUpToCaseUnderscore(CaseSegments(table, Split(s, '_')), Remove(s, '_'));
  }

  /** Two tables that agree on every segment present give the same name. */
  lemma {:induction false} CaseSegmentsSameTables(t1: Table, t2: Table, parts: seq<string>)
    requires forall p :: p in parts ==> (p in t1 <==> p in t2) && (p in t1 ==> t1[p] == t2[p])
    ensures CaseSegments(t1, parts) == CaseSegments(t2, parts)
  {
    if parts != [] {
      assert parts[0] in parts;
      assert forall p :: p in parts[1..] ==> p in parts;
      CaseSegmentsSameTables(t1, t2, parts[1..]);
    }
  }

  // ---------------------------------------------------------------------
  // Transaction names
  // ---------------------------------------------------------------------

  /** The whole-name renames both transaction-name translators apply first. */
  function RenamedTx(inp: string): string {
    if inp == "REGULAR_KEY_SET" then "SET_REGULAR_KEY"
    else if inp == "NICKNAME_SET" then "NICK_NAME_SET"
    else if inp == "AMENDMENT" then "ENABLE_AMENDMENT"
    else if inp == "FEE" then "SET_FEE"
    else if inp == "SPINAL_TAP" then "TICKET_CANCEL"
    else if inp == "HOOK_SET" then "SET_HOOK"
    else inp
  }
}
