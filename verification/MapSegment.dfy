/** Growing the table: one thread at a time, segments first, the mask afterwards. */
module MapSegment {
  import opened MapState
  import opened MapInvariant
  import opened MapFrame

  lemma QuietSegment(s: State, s': State, t: nat)
    requires SegmentOk(s) && t < |s.threads| && |s'.threads| == |s.threads|
    requires forall u :: 0 <= u < |s.threads| && u != t ==> s'.threads[u] == s.threads[u]
    requires s'.segLock == s.segLock && s'.tab.level == s.tab.level && s'.tab.enabled == s.tab.enabled
    requires !Growing(s.threads[t].pc) && !Growing(s'.threads[t].pc)
    ensures SegmentOk(s')
  {
  }

  lemma OperationSegment(s: State, t: nat)
    requires SegmentOk(s) && t < |s.threads| && RunEnabled(s, t) && HasBase(s.threads[t].pc)
    ensures SegmentOk(RunOperation(s, t))
  {
    if Looking(s.threads[t].pc) {
      LookFrameOk(s, t);
      QuietSegment(s, RunOperation(s, t), t);
    } else {
      QuietSegment(s, RunOperation(s, t), t);
    }
  }

  lemma OutsideSegment(s: State, t: nat)
    requires SegmentOk(s) && t < |s.threads| && RunEnabled(s, t)
    requires !Acquiring(s.threads[t].pc) && !HasBase(s.threads[t].pc)
    ensures SegmentOk(RunOutside(s, t))
  {
    var s' := RunOutside(s, t);
    if s.threads[t].pc.LoadMask? || s.threads[t].pc.VisitDone? {
      QuietSegment(s, s', t);
    } else {
      GrowSegment(s, t);
    }
  }

  lemma GrowSegment(s: State, t: nat)
    requires SegmentOk(s) && t < |s.threads| && RunEnabled(s, t)
    requires var pc := s.threads[t].pc; !Acquiring(pc) && !HasBase(pc) && !pc.LoadMask? && !pc.VisitDone?
    ensures SegmentOk(RunOutside(s, t))
  {
    var s' := RunOutside(s, t);
    assert s' == s.(tab := s'.tab, segLock := s'.segLock, threads := s.threads[t := s.threads[t].(pc := s'.threads[t].pc)]);
  }

  lemma RunSegment(s: State, t: nat)
    requires SegmentOk(s) && t < |s.threads| && RunEnabled(s, t)
    ensures SegmentOk(RunThread(s, t))
  {
    if Acquiring(s.threads[t].pc) {
      AcquireFrameOk(s, t);
      QuietSegment(s, RunAcquire(s, t), t);
    } else if HasBase(s.threads[t].pc) {
      OperationSegment(s, t);
    } else {
      OutsideSegment(s, t);
    }
  }
}
