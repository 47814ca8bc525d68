/** The deduplication cascade: signals in, one decision out. */
module Dedup {
  import opened Domain
  import Fingerprint

  const MERGE_THRESHOLD := 0.90
  const REVIEW_BAND := 0.10
  const LINK_THRESHOLD := 0.8

  datatype Decision =
    | Add
    | Ignore(target: Id)
    | Merge(target: Id)
    | Link(target: Id)
    | Review(target: Id)

  /** Byte-identical text on one subject, or one normal form on one type. */
  predicate Duplicate(ct: Fingerprint.CharTable, candidate: Record, incoming: Record) {
    || (SameSubject(candidate, incoming) && candidate.text == incoming.text)
    || (Fingerprint.Normal(ct, candidate.text) == Fingerprint.Normal(ct, incoming.text)
        && candidate.memoryType == incoming.memoryType)
  }

  /** Fraction of shared subject keys; each side has at most one key. */
  function EntityOverlap(a: Record, b: Record): real { if SameSubject(a, b) then 1.0 else 0.0 }

  function Cascade(best: Record, sim: real, incoming: Record, now: Time): Decision {
    if SameSubject(best, incoming) && sim >= MERGE_THRESHOLD && !best.HasEnded(now) then Merge(best.id)
    else if MERGE_THRESHOLD - REVIEW_BAND <= sim < MERGE_THRESHOLD then Review(best.id)
    else if EntityOverlap(best, incoming) >= LINK_THRESHOLD then Link(best.id)
    else Add
  }

  /** `b` is the first of the most similar candidates. */
  ghost predicate FirstBest(sims: seq<real>, b: nat) {
    && b < |sims|
    && (forall j :: 0 <= j < |sims| ==> sims[j] <= sims[b])
    && (forall j :: 0 <= j < b ==> sims[j] < sims[b])
  }

  /** None of the first `n` candidates duplicates the incoming record. */
  ghost predicate FreshAmong(ct: Fingerprint.CharTable, cands: seq<Record>, n: nat, incoming: Record)
    requires n <= |cands|
  {
    forall i :: 0 <= i < n ==> !Duplicate(ct, cands[i], incoming)
  }

  ghost predicate NoDuplicate(ct: Fingerprint.CharTable, cands: seq<Record>, incoming: Record) {
    FreshAmong(ct, cands, |cands|, incoming)
  }

  /** The decision the cascade promises for candidates `cands` with similarities `sims`. */
  ghost predicate Decides(ct: Fingerprint.CharTable, incoming: Record, cands: seq<Record>, sims: seq<real>, now: Time,
                          d: Decision)
    requires |cands| == |sims|
  {
    if NoDuplicate(ct, cands, incoming) then
      if cands == [] then d == Add
      else exists b: nat :: FirstBest(sims, b) && d == Cascade(cands[b], sims[b], incoming, now)
    else
      exists i :: 0 <= i < |cands| && Duplicate(ct, cands[i], incoming) && FreshAmong(ct, cands, i, incoming)
                  && d == Ignore(cands[i].id)
  }

  method Evaluate(ct: Fingerprint.CharTable, incoming: Record, cands: seq<Record>, sims: seq<real>, now: Time)
    returns (d: Decision)
    requires |cands| == |sims|
    ensures Decides(ct, incoming, cands, sims, now, d)
  {
    for i := 0 to |cands|
      invariant FreshAmong(ct, cands, i, incoming)
    {
      if Duplicate(ct, cands[i], incoming) {
        return Ignore(cands[i].id);
      }
    }
    var best: Option<nat> := None;
    for i := 0 to |cands|
      invariant best.None? <==> i == 0
      invariant best.Some? ==> FirstBest(sims[..i], best.value)
    {
      if best.None? || sims[i] > sims[best.value] {
        best := Some(i);
      }
    }
    assert sims[..|sims|] == sims;
    if best.Some? {
      return Cascade(cands[best.value], sims[best.value], incoming, now);
    }
    d := Add;
  }

  /** The cascade leaves no room: one decision per input. */
  lemma DecisionIsUnique(ct: Fingerprint.CharTable, incoming: Record, cands: seq<Record>, sims: seq<real>, now: Time,
                         d: Decision, d': Decision)
    requires |cands| == |sims|
    requires Decides(ct, incoming, cands, sims, now, d) && Decides(ct, incoming, cands, sims, now, d')
    ensures d == d'
  {
    if !NoDuplicate(ct, cands, incoming) {
      var i :| 0 <= i < |cands| && Duplicate(ct, cands[i], incoming) && FreshAmong(ct, cands, i, incoming)
               && d == Ignore(cands[i].id);
      var j :| 0 <= j < |cands| && Duplicate(ct, cands[j], incoming) && FreshAmong(ct, cands, j, incoming)
               && d' == Ignore(cands[j].id);
      assert !(i < j) && !(j < i);
    }
  }

  /** Similarity alone never merges: a merge names an open candidate on the same subject, and no duplicate exists. */
  lemma MergeIsAnchored(ct: Fingerprint.CharTable, incoming: Record, cands: seq<Record>, sims: seq<real>, now: Time,
                        target: Id)
    requires |cands| == |sims|
    requires Decides(ct, incoming, cands, sims, now, Merge(target))
    ensures NoDuplicate(ct, cands, incoming)
    ensures exists b :: 0 <= b < |cands| && cands[b].id == target && SameSubject(cands[b], incoming)
                        && !cands[b].HasEnded(now) && sims[b] >= MERGE_THRESHOLD
  {
    if cands != [] && NoDuplicate(ct, cands, incoming) {
      var b: nat :| FirstBest(sims, b) && Merge(target) == Cascade(cands[b], sims[b], incoming, now);
      assert cands[b].id == target;
    }
  }

  /** A write is ignored if and only if some candidate has its subject and text, or its type and words. */
  lemma IgnoredIff(ct: Fingerprint.CharTable, incoming: Record, cands: seq<Record>, sims: seq<real>, now: Time, d: Decision)
    requires |cands| == |sims| && Decides(ct, incoming, cands, sims, now, d)
    ensures d.Ignore? <==> (exists i ::
              0 <= i < |cands| &&
              ((incoming.subject.Some? && cands[i].subject == incoming.subject && cands[i].text == incoming.text)
               || (cands[i].memoryType == incoming.memoryType
                   && Fingerprint.Normal(ct, cands[i].text) == Fingerprint.Normal(ct, incoming.text))))
  {
    if NoDuplicate(ct, cands, incoming) {
      forall i | 0 <= i < |cands| ensures !Duplicate(ct, cands[i], incoming) {
      }
    } else {
      var i :| 0 <= i < |cands| && Duplicate(ct, cands[i], incoming) && FreshAmong(ct, cands, i, incoming)
               && d == Ignore(cands[i].id);
    }
  }

  /**
   * With no such candidate the first of the most similar ones decides: on the same subject from a similarity of 0.9 on the
   * write is merged, from 0.8 up to 0.9 it is held for review, and otherwise it is linked on the same subject and added on
   * another.
   */
  lemma MostSimilarDecides(ct: Fingerprint.CharTable, incoming: Record, cands: seq<Record>, sims: seq<real>, now: Time,
                           d: Decision, b: nat)
    requires |cands| == |sims| && b < |cands| && Decides(ct, incoming, cands, sims, now, d) && !d.Ignore?
    requires forall j :: 0 <= j < |sims| ==> sims[j] <= sims[b]
    requires forall j :: 0 <= j < b ==> sims[j] < sims[b]
    ensures var (best, sim) := (cands[b], sims[b]);
            var same := incoming.subject.Some? && best.subject == incoming.subject;
            var ended := best.validTo.Some? && best.validTo.value <= now;
            && (d == Merge(best.id) <==> sim >= 0.9 && same && !ended)
            && (d == Review(best.id) <==> 0.8 <= sim < 0.9)
            && (d == Link(best.id) <==> same && (sim < 0.8 || (sim >= 0.9 && ended)))
            && (d == Add <==> !same && (sim < 0.8 || sim >= 0.9))
  {
    var x: nat :| FirstBest(sims, x) && d == Cascade(cands[x], sims[x], incoming, now);
    assert !(x < b) && !(b < x);
  }

  /** An ignored write names a candidate that says the same. */
  lemma IgnoreNamesDuplicate(ct: Fingerprint.CharTable, incoming: Record, cands: seq<Record>, sims: seq<real>, now: Time,
                             target: Id)
    requires |cands| == |sims|
    requires Decides(ct, incoming, cands, sims, now, Ignore(target))
    ensures exists i :: 0 <= i < |cands| && cands[i].id == target && Duplicate(ct, cands[i], incoming)
  {
    forall b: nat | FirstBest(sims, b)
      ensures !Cascade(cands[b], sims[b], incoming, now).Ignore?
    {
    }
  }
}
