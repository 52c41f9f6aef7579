/** The host never gets stuck: each of its steps brings the session it serves nearer to
    an end, and a session that ends badly ends nothing else. */
module PairingProgress {
  import opened Prelude
  import opened Channel
  import opened Pake
  import opened PairingHost

  /** The session being served. */
  function Serving(p: Phase): Option<string> {
    if p.Polling? || p.GaveUp? then None else Some(p.session)
  }

  /** How many more steps the session can take. */
  function Remaining(p: Phase): nat {
    match p
    case HoldsMsg2(_, _, _) => 5
    case AwaitsConfirm(_, _) => 4
    case HoldsConfirm(_, _, _) => 3
    case AwaitsRequest(_, _, _) => 2
    case HoldsAccept(_, _, _) => 1
    case _ => 0
  }

  predicate Over(p: Phase) { p.Joined? || p.GaveUp? }

  /** Whatever the host does in a session, it is one step further in the same session
      afterwards or polls for the next one. */
  lemma StepMovesOn(c: Config, s: System, e: Event)
    requires Enabled(s, e) && !e.Foreign? && !s.phase.Polling?
    ensures var p := Step(c, s, e).phase;
            p.Polling? || (Serving(p) == Serving(s.phase) && Remaining(p) == Remaining(s.phase) - 1)
  {
    hide VerdictOn, Charged, SealNext, OpenNext;
  }

  /** From polling it takes up a session nobody served before, or gives up, or passes
      over a session it cannot answer. */
  lemma PollMovesOn(c: Config, s: System, e: Event)
    requires Enabled(s, e) && !e.Foreign? && s.phase.Polling?
    ensures var t := Step(c, s, e);
            || (e.GiveUp? && t == s.(phase := GaveUp))
            || (e.Pick? && t.served == s.served + [e.session] && (t.phase.Polling? || (Serving(t.phase) == Some(e.session) && Remaining(t.phase) == 5)))
  {
    hide ResponseTo;
  }

  /** The steps of the host's own in a run. */
  ghost function OwnSteps(c: Config, events: seq<Event>): nat {
    if events == [] then 0
    else
      var init, e := events[..|events| - 1], events[|events| - 1];
      OwnSteps(c, init) + if Enabled(After(c, init), e) && !e.Foreign? then 1 else 0
  }

  lemma {:induction false} StepsAreSpent(c: Config, events: seq<Event>)
    ensures var s := After(c, events);
            OwnSteps(c, events) + Remaining(s.phase) <= 6 * |s.served| + if s.phase.GaveUp? then 1 else 0
  {
    if events != [] {
      hide Step, Enabled;
      var init, e := events[..|events| - 1], events[|events| - 1];
      StepsAreSpent(c, init);
      StepSpends(c, After(c, init), e);
    }
  }

  lemma StepSpends(c: Config, s: System, e: Event)
    ensures var t := Step(c, s, e);
            && |t.served| >= |s.served|
            && Remaining(t.phase) + 6 * |s.served| + (if s.phase.GaveUp? then 1 else 0) + (if Enabled(s, e) && !e.Foreign? then 1 else 0)
               <= Remaining(s.phase) + 6 * |t.served| + (if t.phase.GaveUp? then 1 else 0)
  {
    hide VerdictOn, Charged, SealNext, OpenNext, ResponseTo;
    if Enabled(s, e) && !e.Foreign? {
      if s.phase.Polling? { PollMovesOn(c, s, e); } else { StepMovesOn(c, s, e); }
    }
  }

  /** However the adversary schedules and writes, the host takes at most six steps for
      each session it takes up, and one to give up. */
  lemma StepsAreBounded(c: Config, events: seq<Event>)
    ensures OwnSteps(c, events) <= 6 * |After(c, events).served| + 1
  {
    StepsAreSpent(c, events);
  }

  /** The host gives up only while polling and only when told to: no wrong code, taken
      slot or unreadable message ends the hosting. */
  lemma {:induction false} GivesUpOnlyWhenTold(c: Config, events: seq<Event>)
    ensures After(c, events).phase.GaveUp? <==> exists i :: 0 <= i < |events| && events[i].GiveUp? && After(c, events[..i]).phase.Polling?
  {
    if events != [] {
      hide Step, Enabled;
      var init, e := events[..|events| - 1], events[|events| - 1];
      GivesUpOnlyWhenTold(c, init);
      GivingUp(c, After(c, init), e);
      forall i | 0 <= i < |init| ensures init[i] == events[i] && init[..i] == events[..i] {}
      assert events[..|init|] == init;
    }
  }

  lemma GivingUp(c: Config, s: System, e: Event)
    ensures Step(c, s, e).phase.GaveUp? <==> s.phase.GaveUp? || (s.phase.Polling? && e.GiveUp?)
  {
    hide VerdictOn, Charged, SealNext, OpenNext, ResponseTo;
  }

  /** A host that has completed a pairing or given up does nothing more. */
  lemma {:induction false} TheEndIsFinal(c: Config, events: seq<Event>, more: seq<Event>)
    requires Over(After(c, events).phase)
    ensures After(c, events + more) == After(c, events).(slots := After(c, events + more).slots)
  {
    if more == [] {
      assert events + more == events;
    } else {
      TheEndIsFinal(c, events, more[..|more| - 1]);
      assert (events + more)[..|events + more| - 1] == events + more[..|more| - 1];
    }
  }
}
