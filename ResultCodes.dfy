/** Reconstructing the implicit values of the transaction-engine result
    enumeration. Both scripts run the same loop over the matched declarations:
    a counter `upto` starts at -1, an explicit `= n` resets it, each
    declaration is written with the counter, which then goes up by one; the
    previous declaration's class (`last`, initially the empty string) decides
    whether a blank line goes before the current one. */
module ResultCodes {
  import opened Optional
  import opened Records

  /** The loop's state between two declarations; `last == None` stands for
      the initial empty string. */
  datatype Counter = Counter(upto: int, last: Option<ResultClass>)

  const Start := Counter(-1, None)

  /** The attribute both scripts delete from TER.h before scanning it. */
  const Annotation := "[[maybe_unused]]"

  /** One iteration of the loop body. */
  function Step(s: Counter, h: ResultHit): (Counter, ResultCode) {
    var upto := if h.explicit.Some? then h.explicit.value else s.upto;
    var separator := s.last.Some? && h.cls != s.last.value;
    (Counter(upto + 1, Some(h.cls)), ResultCode(h.name, upto, separator))
  }

  /** The loop run over `hits`: its final state and what it wrote. Each
      declaration keeps its name; its value is its explicit one, or else one
      more than the previous value (-1 for the first); a separator stands
      exactly before each declaration whose class differs from the previous
      one's, never before the first. */
  function Run(hits: seq<ResultHit>): (res: (Counter, seq<ResultCode>))
    ensures |res.1| == |hits|
    ensures forall i :: 0 <= i < |hits| ==> res.1[i].name == hits[i].name
    ensures forall i :: 0 <= i < |hits| && hits[i].explicit.Some? ==>
      res.1[i].value == hits[i].explicit.value
    ensures |hits| > 0 && hits[0].explicit.None? ==> res.1[0].value == -1
    ensures forall i :: 0 < i < |hits| && hits[i].explicit.None? ==>
      res.1[i].value == res.1[i - 1].value + 1
    ensures |hits| > 0 ==> !res.1[0].separatorBefore
    ensures forall i :: 0 < i < |hits| ==>
      res.1[i].separatorBefore == (hits[i].cls != hits[i - 1].cls)
    ensures res.0 == if hits == [] then Start
                     else Counter(res.1[|hits| - 1].value + 1, Some(hits[|hits| - 1].cls))
  {
    if hits == [] then (Start, [])
    else
      var prefix := hits[..|hits| - 1];
      var prev := Run(prefix);
      assert forall i :: 0 <= i < |prefix| ==> prefix[i] == hits[i];
      var next := Step(prev.0, hits[|hits| - 1]);
      var out := prev.1 + [next.1];
      assert forall i :: 0 <= i < |prefix| ==> out[i] == prev.1[i];
      assert out[|hits| - 1] == next.1;
      (next.0, out)
  }

  /** The TRANSACTION_RESULTS section. */
  function Numbered(hits: seq<ResultHit>): seq<ResultCode> {
    Run(hits).1
  }

  /** The loop as the scripts write it. */
  method NumberResults(hits: seq<ResultHit>) returns (codes: seq<ResultCode>)
    ensures codes == Numbered(hits)
  {
    var upto := -1;
    var last: Option<ResultClass> := None;
    codes := [];
    var i := 0;
    while i < |hits|
      invariant 0 <= i <= |hits|
      invariant Run(hits[..i]) == (Counter(upto, last), codes)
    {
      var h := hits[i];
      if h.explicit.Some? {
        upto := h.explicit.value;
      }
      var separator := last.Some? && h.cls != last.value;
      last := Some(h.cls);
      codes := codes + [ResultCode(h.name, upto, separator)];
      upto := upto + 1;
      assert hits[..i + 1][..i] == hits[..i];
      i := i + 1;
    }
    assert hits[..i] == hits;
  }

  /** Between two declarations with no explicit value after the first, values
      go up by exactly the distance between them. */
  lemma {:induction false} CountsUp(hits: seq<ResultHit>, j: nat, i: nat)
    requires j <= i < |hits|
    requires forall k :: j < k <= i ==> hits[k].explicit.None?
    ensures Numbered(hits)[i].value == Numbered(hits)[j].value + (i - j)
  {
    if j < i {
      CountsUp(hits, j, i - 1);
    }
  }

  /** A declaration's value and separator depend only on the declarations
      before it: numbering a prefix gives a prefix of the numbering. */
  lemma {:induction false} NumberedPrefix(hits: seq<ResultHit>, k: nat)
    requires k <= |hits|
    ensures Numbered(hits[..k]) == Numbered(hits)[..k]
  {
    if k < |hits| {
      var n := |hits|;
      assert hits[..n - 1][..k] == hits[..k];
      NumberedPrefix(hits[..n - 1], k);
      assert Numbered(hits)[..n - 1] == Numbered(hits[..n - 1]);
    } else {
      assert hits[..k] == hits;
    }
  }

  /** The blank line goes exactly where the captured three-letter prefix of
      the name changes, which is what both scripts compare (`current`). */
  lemma SeparatorsByPrefix(hits: seq<ResultHit>)
    requires forall k :: 0 <= k < |hits| ==> hits[k].Classified()
    ensures forall i :: 0 < i < |hits| ==>
      Numbered(hits)[i].separatorBefore == (hits[i].Group() != hits[i - 1].Group())
  {
    forall i | 0 < i < |hits|
      ensures Numbered(hits)[i].separatorBefore == (hits[i].Group() != hits[i - 1].Group())
    {
      PrefixInjective(hits[i].cls, hits[i - 1].cls);
    }
  }

  /** The local-error run at the head of TER.h: one explicit value followed
      by implicit ones. */
  lemma LocalErrorsExample()
    ensures Numbered([ResultHit("telLOCAL_ERROR", Tel, Some(-399)),
                      ResultHit("telBAD_DOMAIN", Tel, None),
                      ResultHit("telBAD_PUBLIC_KEY", Tel, None),
                      ResultHit("temMALFORMED", Tem, Some(-299))])
         == [ResultCode("telLOCAL_ERROR", -399, false),
             ResultCode("telBAD_DOMAIN", -398, false),
             ResultCode("telBAD_PUBLIC_KEY", -397, false),
             ResultCode("temMALFORMED", -299, true)]
  {
    var hits := [ResultHit("telLOCAL_ERROR", Tel, Some(-399)),
                 ResultHit("telBAD_DOMAIN", Tel, None),
                 ResultHit("telBAD_PUBLIC_KEY", Tel, None),
                 ResultHit("temMALFORMED", Tem, Some(-299))];
    var codes := Numbered(hits);
    assert codes[0] == ResultCode("telLOCAL_ERROR", -399, false);
    assert codes[1] == ResultCode("telBAD_DOMAIN", -398, false);
    assert codes[2] == ResultCode("telBAD_PUBLIC_KEY", -397, false);
    assert codes[3] == ResultCode("temMALFORMED", -299, true);
  }
}
