/** The records the generators read and write. The regular expressions that
    scan the rippled sources are not modelled: each extractor's input is the
    sequence of its matches, one record per match with the captured groups,
    in source order. */
module Records {
  import opened Optional

  // ---------------------------------------------------------------------
  // Captured matches
  // ---------------------------------------------------------------------

  /** A declaration with a name and an integer: `STI_<name> = <id>`,
      `STYPE(STI_<name>, <id>)` or `tt<name> = <id>`. */
  datatype Declaration = Declaration(name: string, id: int)

  /** `lt<name> ... = <value>`: the value is the raw captured text. */
  datatype LedgerHit = LedgerHit(name: string, value: string)

  /** `CONSTRUCT_..._SFIELD(..., "<name>", <tag>, <ordinal> [, ... notSigning])`:
      `marker` is the captured trailing marker, empty when absent. */
  datatype FieldHit = FieldHit(name: string, tag: string, ordinal: nat, marker: string)

  /** The six transaction-result classes, each named by a 3-letter prefix. */
  datatype ResultClass = Tel | Tem | Tef | Ter | Tes | Tec {
    function Prefix(): (p: string)
      ensures |p| == 3
    {
      match this
      case Tel => "tel"
      case Tem => "tem"
      case Tef => "tef"
      case Ter => "ter"
      case Tes => "tes"
      case Tec => "tec"
    }
  }

  /** Distinct classes have distinct prefixes, so comparing the captured
      prefixes compares the classes. */
  lemma PrefixInjective(a: ResultClass, b: ResultClass)
    ensures a.Prefix() == b.Prefix() <==> a == b
  {
  }

  /** `<name> [= <explicit>] ,` in TER.h; `cls` is the class the pattern
      captures from the start of `name`. */
  datatype ResultHit = ResultHit(name: string, cls: ResultClass, explicit: Option<int>) {
    /** The class is the captured prefix of the name, as the pattern's
        second group gives it. */
    predicate Classified() {
      |name| >= 3 && name[..3] == cls.Prefix()
    }

    /** The pattern's second group: the three letters the name starts with. */
    function Group(): (g: string)
      requires Classified()
      ensures g == cls.Prefix()
    {
      name[..3]
    }
  }

  /** Everything the five rippled source files yield. `stypes` holds the matches of the
      `STYPE(STI_X, n)` form, which only gen.py looks for; `stis` those of
      the `STI_X = n` form. */
  datatype Captures = Captures(
    stypes: seq<Declaration>,
    stis: seq<Declaration>,
    ledgerEntries: seq<LedgerHit>,
    fields: seq<FieldHit>,
    results: seq<ResultHit>,
    transactions: seq<Declaration>)

  // ---------------------------------------------------------------------
  // The definitions document
  // ---------------------------------------------------------------------

  /** A `"name": id` member of the TYPES or TRANSACTION_TYPES section. */
  datatype Entry = Entry(name: string, id: int)

  /** A `"name": value` member of LEDGER_ENTRY_TYPES: `value` is the token
      written after the colon, which is the captured text itself when it is
      neither a hexadecimal nor a character literal. */
  datatype LedgerEntry = LedgerEntry(name: string, value: string)

  /** One `[name, {...}]` element of the FIELDS array. */
  datatype FieldDescriptor = FieldDescriptor(
    name: string,
    nth: int,
    isVLEncoded: bool,
    isSerialized: bool,
    isSigningField: bool,
    typeName: string)

  /** A TRANSACTION_RESULTS member; `separatorBefore` is the blank line
      printed ahead of it when the result class changes. */
  datatype ResultCode = ResultCode(name: string, value: int, separatorBefore: bool)

  /** The five sections, in the order they are written. */
  datatype Definitions = Definitions(
    types: seq<Entry>,
    ledgerEntryTypes: seq<LedgerEntry>,
    fields: seq<FieldDescriptor>,
    transactionResults: seq<ResultCode>,
    transactionTypes: seq<Entry>)

  /** Each declaration as an entry named by `translate`, in source order. */
  function Entries(hits: seq<Declaration>, translate: string -> string): (r: seq<Entry>)
    ensures |r| == |hits|
    ensures forall i :: 0 <= i < |hits| ==> r[i] == Entry(translate(hits[i].name), hits[i].id)
  {
    if hits == [] then [] else [Entry(translate(hits[0].name), hits[0].id)] + Entries(hits[1..], translate)
  }

  /** A TYPES or TRANSACTION_TYPES section: the sentinel with -1, then every
      declaration, renamed by `translate`, with its own number, in source
      order. */
  function Section(sentinel: string, hits: seq<Declaration>, translate: string -> string): (r: seq<Entry>)
    ensures |r| == |hits| + 1 && r[0] == Entry(sentinel, -1)
    ensures forall i :: 0 <= i < |hits| ==> r[i + 1] == Entry(translate(hits[i].name), hits[i].id)
  {
    [Entry(sentinel, -1)] + Entries(hits, translate)
  }

  /** Each ledger match as an entry named by `translate` with the value
      `value` gives it, in source order. */
  function LedgerEntries(hits: seq<LedgerHit>, translate: string -> string, value: LedgerHit -> string): (r: seq<LedgerEntry>)
    ensures |r| == |hits|
    ensures forall i :: 0 <= i < |hits| ==> r[i] == LedgerEntry(translate(hits[i].name), value(hits[i]))
  {
    if hits == [] then []
    else [LedgerEntry(translate(hits[0].name), value(hits[0]))] + LedgerEntries(hits[1..], translate, value)
  }

  /** LEDGER_ENTRY_TYPES: `Invalid` with -1, then every match in source
      order. */
  function LedgerSection(hits: seq<LedgerHit>, translate: string -> string, value: LedgerHit -> string): (r: seq<LedgerEntry>)
    ensures |r| == |hits| + 1 && r[0] == LedgerEntry("Invalid", "-1")
    ensures forall i :: 0 <= i < |hits| ==> r[i + 1] == LedgerEntry(translate(hits[i].name), value(hits[i]))
  {
    [LedgerEntry("Invalid", "-1")] + LedgerEntries(hits, translate, value)
  }

  /** Two translators that agree on every declared name give the same
      section. */
  lemma SectionsAgree(sentinel: string, hits: seq<Declaration>, f: string -> string, g: string -> string)
    requires forall i :: 0 <= i < |hits| ==> f(hits[i].name) == g(hits[i].name)
    ensures Section(sentinel, hits, f) == Section(sentinel, hits, g)
  {
    var a := Section(sentinel, hits, f);
    var b := Section(sentinel, hits, g);
    forall k | 0 <= k < |a|
      ensures a[k] == b[k]
    {
      if k > 0 {
        assert a[(k - 1) + 1] == b[(k - 1) + 1];
      }
    }
  }
}
