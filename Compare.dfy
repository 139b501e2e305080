/** Where gen.js and gen.py, given the same captures, write the same thing,
    and where they do not. */
module Compare {
  import opened Optional
  import opened Text
  import opened Numerals
  import opened Records
  import opened Names
  import opened Fields
  import ResultCodes
  import JsGen
  import PyGen

  // ---------------------------------------------------------------------
  // Names
  // ---------------------------------------------------------------------

  /** The Python table is the JavaScript one plus `URI` and `DID`. */
  lemma ExceptionTables()
    ensures PyGen.Exceptions == JsGen.Exceptions["URI" := "URI"]["DID" := "DID"]
    ensures "URI" !in JsGen.Exceptions && "DID" !in JsGen.Exceptions
  {
  }

  /** Without a `UINT` at the start of a line or a `URI` or `DID` segment,
      both translators give the same name. This covers `AMM`, which gen.js
      maps by exact match and gen.py through its table, to the same result. */
  lemma CodecNamesAgree(inp: string)
    requires !LineStartsWith(inp, "UINT")
    requires forall p :: p in Split(inp, '_') ==> p != "URI" && p != "DID"
    ensures JsGen.CodecName(inp) == PyGen.CodecName(inp)
  {
    if inp == "AMM" {
      AmmAgrees();
    } else if inp == "URI_TOKEN" {
      UriTokenHasUri(inp);
      assert false;
    } else {
      OrdinaryNamesAgree(inp);
    }
  }

  lemma OrdinaryNamesAgree(inp: string)
    requires !LineStartsWith(inp, "UINT")
    requires inp != "AMM" && inp != "URI_TOKEN"
    requires forall p :: p in Split(inp, '_') ==> p != "URI" && p != "DID"
    ensures JsGen.CodecName(inp) == PyGen.CodecName(inp)
  {
    if inp !in PyGen.Overrides {
      ExceptionTables();
      CaseSegmentsSameTables(JsGen.Exceptions, PyGen.Exceptions, Split(inp, '_'));
    }
  }

  lemma UriTokenHasUri(inp: string)
    requires inp == "URI_TOKEN"
    ensures "URI" in Split(inp, '_')
  {
    PyGen.UriTokenSegments();
  }

  lemma AmmAgrees()
    ensures JsGen.CodecName("AMM") == PyGen.CodecName("AMM")
  {
    JsGen.CodecNameEntryOverrides();
    PyGen.CodecNameAmm();
  }

  /** A name starting with a single `UINT` is translated alike. */
  lemma CodecNamesAgreeOnUint(inp: string)
    requires StartsWith(inp, "UINT") && Count(inp, "UINT") == 1
    ensures JsGen.CodecName(inp) == PyGen.CodecName(inp)
  {
    ReplaceOnce(inp, "UINT", "Hash");
    ReplaceOnce(inp, "UINT", "UInt");
  }

  /** A name starting with `UINT` that holds a second `UINT` keeps it in
      gen.js, which replaces the first only, and loses it in gen.py. */
  lemma CodecNamesDifferOnRepeatedUint(inp: string)
    requires StartsWith(inp, "UINT") && Count(inp, "UINT") >= 2
    ensures Count(JsGen.CodecName(inp), "UINT") == Count(inp, "UINT") - 1
    ensures Count(PyGen.CodecName(inp), "UINT") == 0
  {
    PyGen.CodecNameUint(inp);
    var q := if Contains(inp, "256") || Contains(inp, "160") || Contains(inp, "128") then "Hash" else "UInt";
    assert JsGen.CodecName(inp) == q + inp[4..];
    PyGen.CountAfterWord(q, inp[4..]);
  }

  /** A `UINT` after a line break is rewritten by gen.js only; gen.py
      treats the name as an ordinary one. */
  lemma CodecNamesDifferOnLaterLine(inp: string)
    requires LineStartsWith(inp, "UINT") && !StartsWith(inp, "UINT")
    requires inp !in PyGen.Overrides
    ensures JsGen.CodecName(inp) == ReplaceFirst(inp, "UINT", "Hash")
      || JsGen.CodecName(inp) == ReplaceFirst(inp, "UINT", "UInt")
    ensures PyGen.CodecName(inp) == CaseSegments(PyGen.Exceptions, Split(inp, '_'))
  {
    PyGen.CodecNameDefault(inp);
  }

  /** `DID` is title-cased by gen.js and kept by gen.py. */
  lemma CodecNamesDifferOnDid()
    ensures JsGen.CodecName("DID") == "Did"
    ensures PyGen.CodecName("DID") == "DID"
  {
    SplitNoSeparator("DID", '_');
  }

  // ---------------------------------------------------------------------
  // Serialized types
  // ---------------------------------------------------------------------

  /** A name both translators render alike: one whose only `UINT` starts
      it, or one with no `UINT` at the start of a line and no `URI` or `DID`
      segment. */
  predicate AgreeingName(n: string) {
    || (StartsWith(n, "UINT") && Count(n, "UINT") == 1)
    || (!LineStartsWith(n, "UINT") && forall p :: p in Split(n, '_') ==> p != "URI" && p != "DID")
  }

  /** Without an `STYPE` list, both scripts write the same TYPES section
      when every type name is one they translate alike. */
  lemma TypesAgree(stis: seq<Declaration>)
    requires forall i :: 0 <= i < |stis| ==> AgreeingName(stis[i].name)
    ensures JsGen.Types(stis) == PyGen.Types([], stis)
  {
    forall i | 0 <= i < |stis|
      ensures JsGen.CodecName(stis[i].name) == PyGen.CodecName(stis[i].name)
    {
      var n := stis[i].name;
      if StartsWith(n, "UINT") && Count(n, "UINT") == 1 {
        CodecNamesAgreeOnUint(n);
      } else {
        CodecNamesAgree(n);
      }
    }
    SectionsAgree("Done", stis, JsGen.CodecName, PyGen.CodecName);
  }

  // ---------------------------------------------------------------------
  // Ledger entry values
  // ---------------------------------------------------------------------

  /** A hexadecimal literal, leading zeros and either letter case included,
      decodes to the same value in both. */
  lemma UnhexAgreesOnHex(d: string)
    requires d != [] && AllHexDigits(d)
    ensures JsGen.Unhex("0x" + d) == DecimalString(HexValue(d))
    ensures PyGen.Unhex("0x" + d) == Some(DecimalString(HexValue(d)))
  {
    JsGen.UnhexBareHex(d);
    PyGen.UnhexHex(d, "");
    assert "0x" + d + "" == "0x" + d;
  }

  /** Ledger-entry codes are written zero-padded in rippled: `0x0061` is 97
      in both. */
  lemma UnhexPaddedExample()
    ensures JsGen.Unhex("0x0061") == "97"
    ensures PyGen.Unhex("0x0061") == Some("97")
  {
    assert "0x0061" == "0x" + "0061";
    PaddedDigits();
    UnhexAgreesOnHex("0061");
  }

  lemma PaddedDigits()
    ensures AllHexDigits("0061") && DecimalString(HexValue("0061")) == "97"
  {
    assert HexValue("0") == 0 by { assert "0"[..0] == []; }
    assert HexValue("00") == 0 by { assert "00"[..1] == "0"; }
    assert HexValue("006") == 6 by { assert "006"[..2] == "00"; }
    assert HexValue("0061") == 97 by { assert "0061"[..3] == "006"; }
  }

  /** A character literal is decoded to its code by gen.js and written as
      captured by gen.py. */
  lemma UnhexDiffersOnCharLiteral(c: char)
    ensures JsGen.Unhex(['\'', c, '\'']) == DecimalString(c as int)
    ensures PyGen.Unhex(['\'', c, '\'']) == Some(['\'', c, '\''])
  {
    var x := ['\'', c, '\''];
    assert JsGen.Unhex(x) == DecimalString(c as int) by {
      JsGen.UnhexCharLiteral(c, "", "");
      assert "" + x + "" == x;
    }
    PyGen.UnhexVerbatim(x);
  }

  /** White space before a hexadecimal literal is trimmed by gen.js; gen.py
      then no longer sees the `0x` and writes the value as captured. */
  lemma UnhexDiffersOnLeadingSpace(d: string, pre: string)
    requires d != [] && AllHexDigits(d)
    requires pre != [] && JsGen.AllSpace(pre)
    ensures JsGen.Unhex(pre + "0x" + d) == DecimalString(HexValue(d))
    ensures PyGen.Unhex(pre + "0x" + d) == Some(pre + "0x" + d)
  {
    var x := pre + "0x" + d;
    assert JsGen.Unhex(x) == DecimalString(HexValue(d)) by {
      JsGen.UnhexHex(d, pre, "", "");
      assert pre + "0x" + d + "" + "" == x;
    }
    assert PyGen.Unhex(x) == Some(x) by {
      assert x[0] == pre[0];
      PyGen.UnhexVerbatim(x);
    }
  }

  /** `0x` followed by something that is not a digit: gen.js writes `NaN`,
      gen.py stops with an exception. */
  lemma UnhexDiffersOnMalformedHex(c: char)
    requires !IsHexDigit(c) && c != '_' && !JsGen.IsSpace(c) && !PyGen.IsSpace(c)
    ensures JsGen.Unhex("0x" + [c]) == "NaN"
    ensures PyGen.Unhex("0x" + [c]) == None
  {
    var x := "0x" + [c];
    JsGen.TrimSurrounded("", x, "");
    assert "" + x + "" == x;
    assert x[2..] == [c];
    PyGen.UnhexRejects(c, "");
    assert "0x" + [c] + "" == x;
  }

  // ---------------------------------------------------------------------
  // Fields
  // ---------------------------------------------------------------------

  /** The flags the two scripts write for a field agree exactly away from
      the four single-slot types: nth differs only for those types when the
      captured number is not 1, serialization only for METADATA, and
      signing only for those types when the marker is not `notSigning`. */
  lemma FieldFlags(h: FieldHit)
    ensures JsGen.Field(h).isVLEncoded == PyGen.Field(h).isVLEncoded
    ensures JsGen.Field(h).nth != PyGen.Field(h).nth <==> JsGen.IsSingleSlot(h.tag) && h.ordinal != 1
    ensures JsGen.Field(h).isSerialized != PyGen.Field(h).isSerialized <==> h.tag == "METADATA"
    ensures JsGen.Field(h).isSigningField != PyGen.Field(h).isSigningField
      <==> JsGen.IsSingleSlot(h.tag) && h.marker != "notSigning"
  {
  }

  // ---------------------------------------------------------------------
  // Transaction results
  // ---------------------------------------------------------------------

  /** With at most one annotation in TER.h, both clean it alike. */
  lemma CleanResultsAgree(text: string)
    requires Count(text, ResultCodes.Annotation) <= 1
    ensures JsGen.CleanResultsText(text) == PyGen.CleanResultsText(text)
  {
    ReplaceOnce(text, ResultCodes.Annotation, "");
  }

  /** Given the same matches, whenever gen.py writes a document it has the
      same TRANSACTION_RESULTS and the same legacy fields as gen.js's. */
  lemma DocumentsShareResults(c: Captures)
    ensures PyGen.Document(c).Some? ==>
      && PyGen.Document(c).value.transactionResults == JsGen.Document(c).transactionResults
      && PyGen.Document(c).value.fields[..8] == JsGen.Document(c).fields[..8]
  {
  }

  // ---------------------------------------------------------------------
  // Transaction names
  // ---------------------------------------------------------------------

  /** A transaction name whose prepared form has an underscore, at most one
      `PAYCHAN`, and no `URI` or `DID` segment is translated alike. */
  lemma TxNamesAgree(inp: string)
    requires Count(RenamedTx(inp), "PAYCHAN") <= 1
    requires '_' in JsGen.TxPrepared(inp)
    requires forall p :: p in Split(JsGen.TxPrepared(inp), '_') ==> p != "URI" && p != "DID"
    ensures JsGen.TxCodecName(inp) == PyGen.TxCodecName(inp)
  {
    ReplaceOnce(RenamedTx(inp), "PAYCHAN", "PAYMENT_CHANNEL");
    ExceptionTables();
    CaseSegmentsSameTables(JsGen.Exceptions, PyGen.Exceptions, Split(JsGen.TxPrepared(inp), '_'));
  }

  /** A transaction name without an underscore is title-cased whole by
      gen.py: `AMM` becomes `Amm`, where gen.js keeps `AMM`. */
  lemma TxNamesDifferOnAmm()
    ensures PyGen.TxCodecName("AMM") == "Amm"
    ensures JsGen.TxCodecName("AMM") == "AMM"
  {
    ReplaceAbsent("AMM", "PAYCHAN", "PAYMENT_CHANNEL");
    SplitNoSeparator("AMM", '_');
  }
}
