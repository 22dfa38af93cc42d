/** Remembering one agent-state scan for a batch, as long as the entry fingerprint stays the same. */
module RefreshMemo {
  import opened Wrappers

  /** The scan's findings, compared as a whole. */
  type Evidence = seq<string>

  /** What computing the fingerprint gives: there is no such function, it failed, or a key. */
  datatype Mark = NoFunction | MarkFailed | Key(key: string)

  /** The situation at one call: the fingerprint, what a scan would find now, and whether it would fail. */
  datatype Situation = Situation(mark: Mark, current: Evidence, fails: bool)

  datatype Call = Query(situation: Situation) | Reset

  function KeyOf(p: Mark): string {
    if p.Key? then p.key else ""
  }

  class Memo {
    var loaded: bool
    var key: string
    var evidence: Evidence

    constructor ()
      ensures !loaded && key == "" && evidence == []
    {
      loaded, key, evidence := false, "", [];
    }

    /** A known key answers from memory and changes nothing; anything else scans, and only a success is remembered. */
    method Get(s: Situation) returns (r: Option<Evidence>)
      modifies this
      ensures var hit := old(loaded) && s.mark.Key? && s.mark.key != "" && s.mark.key == old(key);
              && r == (if hit then Some(old(evidence)) else if s.fails then None else Some(s.current))
              && (hit || s.fails ==> loaded == old(loaded) && key == old(key) && evidence == old(evidence))
              && (!hit && !s.fails ==> loaded && evidence == s.current)
              && (!hit && !s.fails ==> key == if s.mark.Key? then s.mark.key else "")
    {
      var now := "";
      if s.mark != NoFunction {
        if s.mark.Key? {
          now := s.mark.key;
        }
      }
      if loaded && s.mark != NoFunction && now != "" && now == key {
        return Some(evidence);
      }
      if s.fails {
        return None;
      }
      evidence, key, loaded := s.current, now, true;
      return Some(s.current);
    }

    method Clear()
      modifies this
      ensures !loaded && key == "" && evidence == []
    {
      loaded, key, evidence := false, "", [];
    }
  }

  /** Between two resets, equal keys mean that the scan would find the same. */
  ghost predicate KeysDetermineEvidence(calls: seq<Call>) {
    forall a, b :: 0 <= a < b < |calls| && calls[a].Query? && calls[b].Query? && SameBatch(calls, a, b)
                   && KeyOf(calls[a].situation.mark) != ""
                   && KeyOf(calls[a].situation.mark) == KeyOf(calls[b].situation.mark) ==>
      calls[a].situation.current == calls[b].situation.current
  }

  ghost predicate SameBatch(calls: seq<Call>, a: int, b: int) {
    forall k :: a <= k <= b && 0 <= k < |calls| ==> !calls[k].Reset?
  }

  /** The memory comes from an earlier query of this batch with the remembered key. */
  ghost predicate ComesFrom(calls: seq<Call>, n: int, key: string, evidence: Evidence) {
    key != "" ==>
      exists a :: 0 <= a < n <= |calls| && calls[a].Query? && (forall k :: a <= k < n ==> !calls[k].Reset?)
                  && KeyOf(calls[a].situation.mark) == key && calls[a].situation.current == evidence
  }

  lemma HitIsCurrent(calls: seq<Call>, n: int, key: string, evidence: Evidence)
    requires 0 <= n < |calls| && calls[n].Query? && KeysDetermineEvidence(calls) && ComesFrom(calls, n, key, evidence)
    requires key != "" && KeyOf(calls[n].situation.mark) == key
    ensures evidence == calls[n].situation.current
  {
    var a :| 0 <= a < n && calls[a].Query? && (forall k :: a <= k < n ==> !calls[k].Reset?)
             && KeyOf(calls[a].situation.mark) == key && calls[a].situation.current == evidence;
    assert SameBatch(calls, a, n);
  }

  lemma ComesFromStays(calls: seq<Call>, n: int, key: string, evidence: Evidence)
    requires 0 <= n < |calls| && calls[n].Query? && ComesFrom(calls, n, key, evidence)
    ensures ComesFrom(calls, n + 1, key, evidence)
  {
    if key != "" {
      var a :| 0 <= a < n && calls[a].Query? && (forall k :: a <= k < n ==> !calls[k].Reset?)
               && KeyOf(calls[a].situation.mark) == key && calls[a].situation.current == evidence;
      assert forall k :: a <= k < n + 1 ==> !calls[k].Reset?;
    }
  }

  /** In any run of queries and resets in which equal keys of a batch mean equal findings, every successful answer is
      what scanning at that moment would have found, and a query fails only where the scan fails. */
  method Run(calls: seq<Call>) returns (answers: seq<Option<Evidence>>)
    ensures |answers| == |calls|
    ensures forall i :: 0 <= i < |calls| && calls[i].Query? && answers[i] == None ==> calls[i].situation.fails
    ensures KeysDetermineEvidence(calls) ==> forall i :: 0 <= i < |calls| && calls[i].Query? && answers[i].Some? ==>
                                               answers[i] == Some(calls[i].situation.current)
  {
    hide KeysDetermineEvidence, ComesFrom;
    answers := [];
    var memo := new Memo();
    for n := 0 to |calls|
      invariant |answers| == n
      invariant memo.loaded ==> ComesFrom(calls, n, memo.key, memo.evidence)
      invariant forall i :: 0 <= i < n && calls[i].Query? && answers[i] == None ==> calls[i].situation.fails
      invariant KeysDetermineEvidence(calls) ==> forall i :: 0 <= i < n && calls[i].Query? && answers[i].Some? ==>
                                                   answers[i] == Some(calls[i].situation.current)
    {
      match calls[n] {
        case Reset =>
          memo.Clear();
          answers := answers + [None];
        case Query(s) =>
          ghost var loaded, key, evidence := memo.loaded, memo.key, memo.evidence;
          var answer := memo.Get(s);
          if loaded {
            ComesFromStays(calls, n, key, evidence);
            if KeysDetermineEvidence(calls) && key != "" && KeyOf(s.mark) == key {
              HitIsCurrent(calls, n, key, evidence);
            }
          }
          Remembered(calls, n);
          answers := answers + [answer];
      }
    }
  }

  lemma Remembered(calls: seq<Call>, n: int)
    requires 0 <= n < |calls| && calls[n].Query?
    ensures ComesFrom(calls, n + 1, KeyOf(calls[n].situation.mark), calls[n].situation.current)
  {
    assert forall k :: n <= k < n + 1 ==> !calls[k].Reset?;
  }
}
