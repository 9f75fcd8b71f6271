/** Where decoded events go: an optional filter, and a callback that may ask to stop. */
module Delivery {
  import opened Events
  import opened Filter

  /** `breaks(h)` says whether the callback, having been handed the history `h`, asks to stop. */
  datatype Consumer = Consumer(filter: Option<EventFilter>, breaks: seq<Event> -> bool)

  /** Events handed to the callback, events decoded, and whether it asked to stop. */
  datatype SinkState = SinkState(out: seq<Event>, seen: nat, stopped: bool)

  const FRESH_SINK: SinkState := SinkState([], 0, false)

  function PushSpec(c: Consumer, s: SinkState, e: Event): (r: SinkState)
  {
    if s.stopped then s
    else if c.filter.Some? && !Matches(c.filter.value, e) then s.(seen := s.seen + 1)
    else SinkState(s.out + [e], s.seen + 1, c.breaks(s.out + [e]))
  }

  function PushAll(c: Consumer, s: SinkState, evs: seq<Event>): (r: SinkState)
    decreases |evs|
  {
    if evs == [] then s else PushAll(c, PushSpec(c, s, evs[0]), evs[1..])
  }

  class Sink {
    const consumer: Consumer
    var out: seq<Event>
    var seen: nat
    var stopped: bool

    constructor (consumer: Consumer)
      ensures this.consumer == consumer && State() == FRESH_SINK
    {
      this.consumer := consumer;
      out, seen, stopped := [], 0, false;
    }

    function State(): (r: SinkState)
      reads this
    {
      SinkState(out, seen, stopped)
    }

    method Push(e: Event)
      modifies this
      ensures State() == PushSpec(consumer, old(State()), e)
    {
      if stopped {
        return;
      }
      seen := seen + 1;
      if consumer.filter.Some? && !Matches(consumer.filter.value, e) {
        return;
      }
      out := out + [e];
      if consumer.breaks(out) {
        stopped := true;
      }
    }

    /** Hand over events one by one, giving up as soon as the callback asks to. */
    method PushEach(evs: seq<Event>)
      modifies this
      ensures State() == PushAll(consumer, old(State()), evs)
    {
      var i := 0;
      while i < |evs|
        invariant 0 <= i <= |evs|
        invariant PushAll(consumer, State(), evs[i..]) == PushAll(consumer, old(State()), evs)
      {
        assert evs[i..][1..] == evs[i + 1..];
        Push(evs[i]);
        i := i + 1;
        if stopped {
          PushAllAfterStop(consumer, State(), evs[i..]);
          return;
        }
      }
    }
  }

  lemma {:induction false} PushAllAfterStop(c: Consumer, s: SinkState, evs: seq<Event>)
    requires s.stopped
    ensures PushAll(c, s, evs) == s
  {
    if evs != [] {
      PushAllAfterStop(c, s, evs[1..]);
    }
  }

  lemma {:induction false} PushAllAppend(c: Consumer, s: SinkState, a: seq<Event>, b: seq<Event>)
    ensures PushAll(c, s, a + b) == PushAll(c, PushAll(c, s, a), b)
    decreases |a|
  {
    if a == [] {
      assert a + b == b;
    } else {
      PushAllAppend(c, PushSpec(c, s, a[0]), a[1..], b);
      assert (a + b)[1..] == a[1..] + b;
    }
  }

  lemma StoppedDeliveryIgnoresTheRest(c: Consumer, s: SinkState, evs: seq<Event>, rest: seq<Event>)
    requires PushAll(c, s, evs).stopped
    ensures PushAll(c, s, evs + rest) == PushAll(c, s, evs)
  {
    PushAllAppend(c, s, evs, rest);
    PushAllAfterStop(c, PushAll(c, s, evs), rest);
  }

  /** A callback that never stops is handed exactly the matching events, in order. */
  lemma {:induction false} PushAllDeliversMatches(c: Consumer, s: SinkState, evs: seq<Event>)
    requires !s.stopped && forall h :: !c.breaks(h)
    ensures PushAll(c, s, evs) == SinkState(s.out + FilterSeq(c.filter, evs), s.seen + |evs|, false)
    decreases |evs|
  {
    if evs != [] {
      PushAllDeliversMatches(c, PushSpec(c, s, evs[0]), evs[1..]);
    }
  }

  /** Whatever the callback does, it is handed a prefix of the matching events, and all of them unless it stopped. */
  lemma {:induction false} PushAllDeliversAPrefix(c: Consumer, s: SinkState, evs: seq<Event>)
    ensures var r := PushAll(c, s, evs);
            && s.out <= r.out <= s.out + FilterSeq(c.filter, evs)
            && (!r.stopped ==> r.out == s.out + FilterSeq(c.filter, evs) && r.seen == s.seen + |evs|)
    decreases |evs|
  {
    if evs != [] {
      PushAllDeliversAPrefix(c, PushSpec(c, s, evs[0]), evs[1..]);
      if s.stopped {
        PushAllAfterStop(c, s, evs);
      }
    }
  }

  /** The callback asks to stop at none of the histories it would be handed. */
  ghost predicate NeverAsksToStop(c: Consumer, handed: seq<Event>, evs: seq<Event>)
  {
    var more := FilterSeq(c.filter, evs);
    forall k :: 0 < k <= |more| ==> !c.breaks(handed + more[..k])
  }

  /** Delivery stops exactly when the callback asks for it at some matching event. */
  lemma {:induction false} StopsExactlyWhenAsked(c: Consumer, s: SinkState, evs: seq<Event>)
    requires !s.stopped
    ensures PushAll(c, s, evs).stopped <==> !NeverAsksToStop(c, s.out, evs)
    decreases |evs|
  {
    if evs != [] {
      var t, more, rest := PushSpec(c, s, evs[0]), FilterSeq(c.filter, evs), FilterSeq(c.filter, evs[1..]);
      if c.filter.Some? && !Matches(c.filter.value, evs[0]) {
        assert more == rest;
        StopsExactlyWhenAsked(c, t, evs[1..]);
      } else {
        assert more == [evs[0]] + rest && s.out + more[..1] == t.out;
        if t.stopped {
          PushAllAfterStop(c, t, evs[1..]);
        } else {
          StopsExactlyWhenAsked(c, t, evs[1..]);
          OneMoreAsked(c, s.out, evs[0], rest);
        }
      }
    }
  }

  lemma OneMoreAsked(c: Consumer, handed: seq<Event>, e: Event, rest: seq<Event>)
    requires !c.breaks(handed + [e])
    ensures (forall k :: 0 < k <= |[e] + rest| ==> !c.breaks(handed + ([e] + rest)[..k]))
       <==> (forall k :: 0 < k <= |rest| ==> !c.breaks(handed + [e] + rest[..k]))
  {
    var more := [e] + rest;
    assert more[..1] == [e];
    forall k | 0 < k <= |rest|
      ensures handed + more[..k + 1] == handed + [e] + rest[..k]
    {
    }
    if forall k :: 0 < k <= |rest| ==> !c.breaks(handed + [e] + rest[..k]) {
      forall k | 0 < k <= |more|
        ensures !c.breaks(handed + more[..k])
      {
        if k > 1 {
          assert handed + more[..k - 1 + 1] == handed + [e] + rest[..k - 1];
        }
      }
    }
  }

  /** Equal for the caller: the same events handed over and the same stop. */
  predicate SameDelivery(a: SinkState, b: SinkState)
  {
    a.out == b.out && a.stopped == b.stopped
  }

  lemma {:induction false} SameDeliveryIsKept(c: Consumer, a: SinkState, b: SinkState, evs: seq<Event>)
    requires SameDelivery(a, b)
    ensures SameDelivery(PushAll(c, a, evs), PushAll(c, b, evs))
    decreases |evs|
  {
    if evs != [] {
      SameDeliveryIsKept(c, PushSpec(c, a, evs[0]), PushSpec(c, b, evs[0]), evs[1..]);
    }
  }

  /** Leaving out events the filter rejects changes nothing the caller sees. */
  lemma {:induction false} SkippingRejectedEvents(c: Consumer, s: SinkState, evs: seq<Event>)
    requires c.filter.Some? && forall i :: 0 <= i < |evs| ==> !Matches(c.filter.value, evs[i])
    ensures SameDelivery(PushAll(c, s, evs), s)
    decreases |evs|
  {
    if evs != [] {
      SkippingRejectedEvents(c, PushSpec(c, s, evs[0]), evs[1..]);
    }
  }
}
