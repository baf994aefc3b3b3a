/** The hand-off slot through which the table passes the bug being edited to the
    form: a last-value subject that starts empty (""), is set by `passDataEdit`,
    and is emptied again by a timer that each `passDataEdit` starts. The timer's
    firing is an explicit `Expiry` event; a timer can only fire if one is pending. */
module EditHandOff {
  import opened Wrappers
  import opened BugsData

  /** `value` is None for the empty sentinel; `pendingExpiries` counts started, unfired timers. */
  datatype Slot = Slot(value: Option<Bug>, pendingExpiries: nat)

  datatype Event = Publish(bug: Bug) | Expiry | Read

  const Initial: Slot := Slot(None, 0)

  /** `passDataEdit(bug)`: stores the bug and starts one more expiry timer. */
  function PassDataEdit(s: Slot, bug: Bug): (r: Slot)
    ensures r.value == Some(bug)
    ensures r.pendingExpiries == s.pendingExpiries + 1
  {
    Slot(Some(bug), s.pendingExpiries + 1)
  }

  /** One timer fires: the slot is empty whatever it held, and whoever published it. */
  function Expire(s: Slot): (r: Slot)
    requires s.pendingExpiries > 0
    ensures r.value == None
    ensures r.pendingExpiries + 1 == s.pendingExpiries
  {
    Slot(None, s.pendingExpiries - 1)
  }

  /** What a new subscriber receives at once: the current value. Reading changes nothing. */
  function Subscribe(s: Slot): Option<Bug> {
    s.value
  }

  /** The slot after one event, or None when a timer fires that was never started. */
  function Step(s: Slot, e: Event): Option<Slot> {
    match e
    case Publish(b) => Some(PassDataEdit(s, b))
    case Expiry => if s.pendingExpiries > 0 then Some(Expire(s)) else None
    case Read => Some(s)
  }

  /** The slot after a sequence of events; None when the sequence cannot happen. */
  function Run(s: Slot, evs: seq<Event>): Option<Slot>
    decreases |evs|
  {
    if |evs| == 0 then Some(s)
    else match Run(s, evs[..|evs| - 1])
      case None => None
      case Some(t) => Step(t, evs[|evs| - 1])
  }

  /** Reference: the value is set by the last publish or expiry, reads aside. */
  function Latest(start: Option<Bug>, evs: seq<Event>): Option<Bug>
    decreases |evs|
  {
    if |evs| == 0 then start
    else match evs[|evs| - 1]
      case Publish(b) => Some(b)
      case Expiry => None
      case Read => Latest(start, evs[..|evs| - 1])
  }

  function CountPublish(evs: seq<Event>): nat
    decreases |evs|
  {
    if |evs| == 0 then 0 else CountPublish(evs[..|evs| - 1]) + (if evs[|evs| - 1].Publish? then 1 else 0)
  }

  function CountExpiry(evs: seq<Event>): nat
    decreases |evs|
  {
    if |evs| == 0 then 0 else CountExpiry(evs[..|evs| - 1]) + (if evs[|evs| - 1].Expiry? then 1 else 0)
  }

  /** Any possible run leaves the slot holding what the reference says, with one
      pending timer per publish not yet matched by an expiry. */
  lemma {:induction false} RunMatchesLatest(s: Slot, evs: seq<Event>)
    requires Run(s, evs).Some?
    ensures Run(s, evs).value.value == Latest(s.value, evs)
    ensures Run(s, evs).value.pendingExpiries + CountExpiry(evs) == s.pendingExpiries + CountPublish(evs)
    decreases |evs|
  {
    if |evs| > 0 {
      RunMatchesLatest(s, evs[..|evs| - 1]);
    }
  }

  /** A run is possible exactly when no expiry outnumbers the timers started before it. */
  lemma {:induction false} RunPossible(s: Slot, evs: seq<Event>)
    ensures Run(s, evs).Some? <==>
      forall k :: 0 < k <= |evs| ==> CountExpiry(evs[..k]) <= s.pendingExpiries + CountPublish(evs[..k])
    decreases |evs|
  {
    if |evs| > 0 {
      var pre := evs[..|evs| - 1];
      RunPossible(s, pre);
      assert evs[..|evs|] == evs;
      forall k | 0 < k <= |pre|
        ensures pre[..k] == evs[..k]
      {
      }
      if Run(s, pre).Some? {
        RunMatchesLatest(s, pre);
      }
      if Run(s, evs).Some? {
        RunMatchesLatest(s, evs);
      }
    }
  }

  /** Extending a run by one event. */
  lemma RunSnoc(s: Slot, evs: seq<Event>, e: Event)
    ensures Run(s, evs + [e]) == (match Run(s, evs) case None => None case Some(t) => Step(t, e))
  {
    assert (evs + [e])[..|evs|] == evs;
  }

  /** After a publish the slot holds the bug, however often it is read, and the
      expiry that follows empties it again. */
  lemma PublishThenExpire(s: Slot, bug: Bug, views: seq<Event>)
    requires forall i :: 0 <= i < |views| ==> views[i].Read?
    ensures Run(s, [Publish(bug)] + views) == Some(Slot(Some(bug), s.pendingExpiries + 1))
    ensures Run(s, [Publish(bug)] + views + [Expiry]) == Some(Slot(None, s.pendingExpiries))
  {
    var held := [Publish(bug)] + views;
    PublishThenRead(s, bug, views);
    RunSnoc(s, held, Expiry);
  }

  lemma PublishThenRead(s: Slot, bug: Bug, views: seq<Event>)
    requires forall i :: 0 <= i < |views| ==> views[i].Read?
    ensures Run(s, [Publish(bug)] + views) == Some(Slot(Some(bug), s.pendingExpiries + 1))
  {
    var t := PassDataEdit(s, bug);
    RunSnoc(s, [], Publish(bug));
    assert [] + [Publish(bug)] == [Publish(bug)];
    ReadsAfter(s, [Publish(bug)], t, views);
  }

  lemma {:induction false} ReadsAfter(s: Slot, prefix: seq<Event>, t: Slot, views: seq<Event>)
    requires Run(s, prefix) == Some(t)
    requires forall i :: 0 <= i < |views| ==> views[i].Read?
    ensures Run(s, prefix + views) == Some(t)
    decreases |views|
  {
    if |views| == 0 {
      assert prefix + views == prefix;
    } else {
      var shorter := views[..|views| - 1];
      ReadsAfter(s, prefix, t, shorter);
      assert prefix + views == (prefix + shorter) + [views[|views| - 1]];
      RunSnoc(s, prefix + shorter, views[|views| - 1]);
    }
  }

  /** Timers are not tied to the record that started them: the timer of an
      earlier publish empties the slot while a later publish's record is in it. */
  lemma EarlierTimerClearsLaterRecord(a: Bug, b: Bug)
    ensures Run(Initial, [Publish(a), Publish(b)]) == Some(Slot(Some(b), 2))
    ensures Run(Initial, [Publish(a), Publish(b), Expiry]) == Some(Slot(None, 1))
  {
    RunSnoc(Initial, [], Publish(a));
    assert [] + [Publish(a)] == [Publish(a)];
    RunSnoc(Initial, [Publish(a)], Publish(b));
    assert [Publish(a)] + [Publish(b)] == [Publish(a), Publish(b)];
    RunSnoc(Initial, [Publish(a), Publish(b)], Expiry);
    assert [Publish(a), Publish(b)] + [Expiry] == [Publish(a), Publish(b), Expiry];
  }
}
