/** Contradiction analysis and the policy that resolves it. */
module Conflict {
  import opened Domain

  datatype Kind = Consistent | Duplicate | Supersedes | Contradicts | Ambiguous | ReviewRequired

  datatype Analysis = Analysis(kind: Kind, existingId: Option<Id>)

  datatype Outcome = Write | ReplaceExisting(closing: Id) | QuarantineIncoming

  function Analyze(incoming: Record, existing: Record, negates: bool, valueConflict: bool): Analysis {
    if !SameSubject(incoming, existing) then Analysis(Consistent, None)
    else if negates then Analysis(Contradicts, Some(existing.id))
    else if valueConflict then Analysis(ReviewRequired, Some(existing.id))
    else Analysis(Ambiguous, Some(existing.id))
  }

  const EPSILON := 0.000_000_119_209_29

  function Abs(x: real): real { if x < 0.0 then -x else x }

  /** Authority first; confidence breaks ties. */
  predicate Dominates(incoming: Record, existing: Record) {
    var a, e := incoming.source.Authority(), existing.source.Authority();
    if Abs(a - e) > EPSILON then a > e else incoming.confidence >= existing.confidence
  }

  function Resolve(analysis: Analysis, incoming: Record, existing: Record): Outcome {
    match analysis.kind
    case Consistent => Write
    case Supersedes => Write
    case Duplicate => Write
    case ReviewRequired => QuarantineIncoming
    case Ambiguous => if Dominates(incoming, existing) then ReplaceExisting(existing.id) else QuarantineIncoming
    case Contradicts => ReplaceExisting(if analysis.existingId.Some? then analysis.existingId.value else existing.id)
  }

  /** Retires `existing`; a window that is already bounded keeps its end. */
  function CloseWindow(existing: Record, now: Time): Record {
    existing.(validTo := if existing.validTo.Some? then existing.validTo else Some(now),
              status := Superseded, updatedAt := now)
  }

  /** The first existing fact that does not let the write through decides. */
  function Verdict(negates: bool, incoming: Record, facts: seq<Record>): Outcome {
    if facts == [] then Write
    else
      var outcome := Resolve(Analyze(incoming, facts[0], negates, false), incoming, facts[0]);
      if outcome == Write then Verdict(negates, incoming, facts[1..]) else outcome
  }

  method ResolveAll(negates: bool, incoming: Record, facts: seq<Record>) returns (outcome: Outcome)
    ensures outcome == Verdict(negates, incoming, facts)
  {
    assert facts[0..] == facts;
    for i := 0 to |facts|
      invariant Verdict(negates, incoming, facts) == Verdict(negates, incoming, facts[i..])
    {
      assert facts[i..][1..] == facts[i + 1..];
      outcome := Resolve(Analyze(incoming, facts[i], negates, false), incoming, facts[i]);
      if outcome != Write {
        return;
      }
    }
    outcome := Write;
  }

  /**
   * Authority outranks confidence, and of two facts one always dominates the other: a total preorder. Users dominate
   * external sources, those tools, those the system, and that agents; on equal sources the higher confidence dominates.
   */
  lemma DominanceIsTotalPreorder(a: Record, b: Record, c: Record)
    ensures Dominates(a, a)
    ensures Dominates(a, b) || Dominates(b, a)
    ensures Dominates(a, b) && Dominates(b, c) ==> Dominates(a, c)
    ensures a.source == b.source ==> (Dominates(a, b) <==> a.confidence >= b.confidence)
    ensures a.source == User && b.source != User ==> Dominates(a, b) && !Dominates(b, a)
    ensures a.source == External && b.source != User && b.source != External ==> Dominates(a, b) && !Dominates(b, a)
    ensures a.source == Tool && (b.source == System || b.source == Agent) ==> Dominates(a, b) && !Dominates(b, a)
    ensures a.source == System && b.source == Agent ==> Dominates(a, b) && !Dominates(b, a)
  {
  }

  /** Against open facts on its own subject an incoming record is never simply written beside them. */
  lemma SameSubjectNeverWrites(negates: bool, incoming: Record, facts: seq<Record>)
    requires facts != [] && forall i :: 0 <= i < |facts| ==> SameSubject(incoming, facts[i])
    ensures incoming.source == facts[0].source && !negates ==>
              (Verdict(negates, incoming, facts) == ReplaceExisting(facts[0].id)
               <==> incoming.confidence >= facts[0].confidence)
    ensures Verdict(negates, incoming, facts)
         == if negates || Dominates(incoming, facts[0]) then ReplaceExisting(facts[0].id) else QuarantineIncoming
  {
  }
}
