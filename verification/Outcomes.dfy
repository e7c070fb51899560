/** What a call ends with, and why a call sends only one frame while ids do not wrap around. Both levels. */
module Outcomes {
  import opened Bytes
  import opened Channel
  import opened Multiplex
  import opened Bookkeeping

  /** Every id issued so far is different from the others on its connection, and from 0. */
  predicate NoWrap(s: System) {
    forall k :: 0 <= k < |s.conns| ==> |s.conns[k].owner| < U32_SIZE
  }

  /** A result says where it comes from. */
  predicate CallEnds(s: System, c: nat)
    requires c < |s.calls|
  {
    var call := s.calls[c];
    && (call.failures >= 3 <==> call.phase == Done(Unreachable) || (call.phase.Done? && call.phase.result.TimedOut?))
    && (call.payload == [] <==> call.phase == Done(Invalid))
    && match call.phase
       case Done(Replied(j, body)) =>
         && j < |s.attempts| && s.attempts[j].call == c
         && (s.attempts[j].outcome == Completed(body) || (s.attempts[j].outcome.Expired? && body == []))
       case Done(TimedOut(j)) => j < |s.attempts| && s.attempts[j].call == c && s.attempts[j].outcome.Discarded?
       case _ => true
  }

  /** An attempt is the one its call awaits or was answered by, unless its sender was discarded. */
  predicate AttemptSpent(s: System, j: nat)
    requires j < |s.attempts|
  {
    var a := s.attempts[j];
    && a.call < |s.calls|
    && (a.outcome.Discarded? || s.calls[a.call].phase == Awaiting(j)
        || (s.calls[a.call].phase.Done? && s.calls[a.call].phase.result.Replied?
            && s.calls[a.call].phase.result.attempt == j))
  }

  predicate Ended(s: System) {
    && (forall c :: 0 <= c < |s.calls| ==> CallEnds(s, c))
    && (forall j :: 0 <= j < |s.attempts| ==> AttemptSpent(s, j))
    && (NoWrap(s) ==> forall j :: 0 <= j < |s.attempts| ==> !s.attempts[j].outcome.Discarded?)
  }

  lemma StartEnded(mode: Mode, level: Level, poolSize: nat)
    ensures Ended(Start(mode, level, poolSize))
  {
  }

  lemma NoWrapBefore(s: System, t: System)
    requires Kept(s, t) && NoWrap(t)
    ensures NoWrap(s)
  {
    forall k | 0 <= k < |s.conns|
      ensures |s.conns[k].owner| < U32_SIZE
    {
      assert ConnKept(s.conns[k], t.conns[k]);
      assert |t.conns[k].owner| < U32_SIZE;
    }
  }

  /** Two attempts on one connection with the same id are the same attempt. */
  lemma IdsDistinct(s: System, i: nat, j: nat)
    requires Consistent(s) && NoWrap(s) && i < |s.attempts| && j < |s.attempts|
    requires s.attempts[i].conn == s.attempts[j].conn && Id(s.attempts[i].serial) == Id(s.attempts[j].serial)
    ensures i == j && Id(s.attempts[i].serial) != 0
  {
    assert AttemptOk(s, i) && AttemptOk(s, j);
    assert |s.conns[s.attempts[i].conn].owner| < U32_SIZE;
  }

  predicate CallSame(s: System, t: System, j: nat) {
    && j < |s.attempts| && s.attempts[j].call < |s.calls| <= |t.calls|
    && t.calls[s.attempts[j].call] == s.calls[s.attempts[j].call]
  }

  lemma CallsSame(s: System, t: System, c: nat)
    requires Consistent(s) && |s.calls| <= |t.calls|
    requires forall d :: 0 <= d < |s.calls| && d != c ==> t.calls[d] == s.calls[d]
    ensures forall j :: 0 <= j < |s.attempts| && s.attempts[j].call != c ==> CallSame(s, t, j)
    ensures c == |s.calls| ==> forall j :: 0 <= j < |s.attempts| ==> CallSame(s, t, j)
  {
    forall j | 0 <= j < |s.attempts|
      ensures s.attempts[j].call != |s.calls|
      ensures s.attempts[j].call != c ==> CallSame(s, t, j)
    {
      assert AttemptOk(s, j);
    }
  }

  /** The calls and attempts that `t` and `s` share end alike, apart from those the step is about. */
  lemma EndedFrom(s: System, t: System)
    requires Consistent(s) && Ended(s) && Kept(s, t)
    requires forall c :: 0 <= c < |t.calls| ==> (c < |s.calls| && t.calls[c] == s.calls[c]) || CallEnds(t, c)
    requires forall j :: 0 <= j < |t.attempts| ==> AttemptSpent(t, j) || CallSame(s, t, j)
    requires NoWrap(t) ==> forall j :: 0 <= j < |s.attempts| ==>
               (t.attempts[j].outcome.Discarded? ==> s.attempts[j].outcome.Discarded?)
    requires forall j :: |s.attempts| <= j < |t.attempts| ==> !t.attempts[j].outcome.Discarded?
    ensures Ended(t)
  {
    forall c | 0 <= c < |t.calls|
      ensures CallEnds(t, c)
    {
      if c < |s.calls| {
        assert CallEnds(s, c);
      }
    }
    forall j | 0 <= j < |t.attempts|
      ensures AttemptSpent(t, j)
    {
      if j < |s.attempts| {
        assert AttemptSpent(s, j) && AttemptKept(s.attempts[j], t.attempts[j]);
      }
    }
    if NoWrap(t) {
      NoWrapBefore(s, t);
    }
  }

  /** Only call `c` changes; it awaited no attempt, or one whose end it now reports. */
  lemma CallStepEnds(s: System, t: System, c: nat)
    requires Consistent(s) && Ended(s) && Kept(s, t) && c < |s.calls| && t.attempts == s.attempts
    requires |t.calls| == |s.calls| && t.calls == s.calls[c := t.calls[c]] && CallEnds(t, c)
    requires forall j :: 0 <= j < |s.attempts| && s.attempts[j].call == c ==> AttemptSpent(t, j)
    ensures Ended(t)
  {
    CallsSame(s, t, c);
    EndedFrom(s, t);
  }

  lemma ChooseEnds(s: System, c: nat)
    requires Consistent(s) && Ended(s) && ChooseStep(s, c).Some?
    ensures Ended(ChooseStep(s, c).value)
  {
    var t := ChooseStep(s, c).value;
    ChooseKeeps(s, c);
    assert CallEnds(s, c);
    assert forall j :: 0 <= j < |s.attempts| && s.attempts[j].call == c ==> AttemptSpent(s, j);
    CallStepEnds(s, t, c);
  }

  lemma TakeIdEnds(s: System, c: nat)
    requires Consistent(s) && Ended(s) && TakeIdStep(s, c).Some?
    ensures Ended(TakeIdStep(s, c).value)
  {
    var t := TakeIdStep(s, c).value;
    TakeIdKeeps(s, c);
    assert CallEnds(s, c);
    forall j | 0 <= j < |s.attempts| && s.attempts[j].call == c
      ensures AttemptSpent(t, j)
    {
      assert AttemptSpent(s, j);
    }
    CallsSame(s, t, c);
    EndedFrom(s, t);
  }

  lemma ReturnEnds(s: System, c: nat)
    requires Consistent(s) && Ended(s) && ReturnStep(s, c).Some?
    ensures Ended(ReturnStep(s, c).value)
  {
    var t := ReturnStep(s, c).value;
    ReturnKeeps(s, c);
    assert CallEnds(s, c);
    assert CallOk(s, c);
    forall j | 0 <= j < |s.attempts| && s.attempts[j].call == c
      ensures AttemptSpent(t, j)
    {
      assert AttemptSpent(s, j);
    }
    CallStepEnds(s, t, c);
  }

  lemma StoreEnds(s: System, j: nat, now: int)
    requires Consistent(s) && Ended(s) && StoreStep(s, j, now).Some?
    ensures Ended(StoreStep(s, j, now).value)
  {
    var t := StoreStep(s, j, now).value;
    StoreKeeps(s, j, now);
    Overwritten(s, j);
    if NoWrap(t) {
      NoWrapBefore(s, t);
      var k, id := s.attempts[j].conn, Id(s.attempts[j].serial);
      if id in s.conns[k].demux {
        IdsDistinct(s, s.conns[k].demux[id].0, j);
      }
    }
    CallsSame(s, t, |s.calls|);
    EndedFrom(s, t);
  }

  lemma StepEnds(s: System, l: Label)
    requires Consistent(s) && Ended(s) && Next(s, l).Some?
    ensures Ended(Next(s, l).value)
  {
    hide Consistent, Ended, Kept, ChooseStep, TakeIdStep, StoreStep, ReturnStep, Step, Take, Enqueue, NoWrap;
    StepKeeps(s, l);
    match l
    case Choose(c) => ChooseEnds(s, c);
    case TakeId(c) => TakeIdEnds(s, c);
    case Store(j, now) => StoreEnds(s, j, now);
    case Return(c) => ReturnEnds(s, c);
    case _ =>
      CallsSame(s, Next(s, l).value, |s.calls|);
      EndedFrom(s, Next(s, l).value);
  }
}
