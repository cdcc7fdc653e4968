/** A delivered message inside a stream of many keys, and what its delivery says of its first frame. */
module StreamDelivery {
  import opened Wrappers
  import opened Checksums
  import opened Reassembly
  import opened Transport

  /** Events of a delivered message: one start, appended fragments, and finally the one completion. */
  predicate IsDelivery(events: seq<Option<Event>>, key: BufferKey, header: seq<string>, payload: string, sum: string) {
    && |events| >= 2 && |header| == 3
    && forall i :: 0 <= i < |events| ==> EventIs(events[i], i, |events|, key, header, payload, sum)
  }

  /** The `n` events of a key from number `s` on are those of a delivered message. */
  predicate DeliveredIn(rules: Rules, all: seq<Decoded>, key: BufferKey, s: nat, n: nat, header: seq<string>,
                        payload: string)
  {
    var events := EventsOf(rules, all, key);
    s + n <= |events| && IsDelivery(events[s..s + n], key, header, payload, Checksum16(rules.crcs, payload))
  }

  /** The events of a stream's frames. */
  function EventsAt(rules: Rules, frames: seq<Decoded>): (events: seq<Option<Event>>)
    ensures |events| == |frames|
  {
    seq(|frames|, i requires 0 <= i < |frames| => EventAt(rules, frames, i))
  }

  predicate OfKey(frames: seq<Decoded>, key: BufferKey) {
    forall i :: 0 <= i < |frames| ==> KeyOf(frames[i]) == key
  }

  lemma {:induction false} SubstreamIsOfKey(frames: seq<Decoded>, key: BufferKey)
    ensures OfKey(Substream(frames, key), key)
  {
    if frames != [] {
      SubstreamIsOfKey(frames[..|frames| - 1], key);
    }
  }

  /** The events of a stream of one key are the events of its frames. */
  lemma {:induction false} EventsOfKey(rules: Rules, frames: seq<Decoded>, key: BufferKey)
    requires OfKey(frames, key)
    ensures |EventsOf(rules, frames, key)| == |frames|
    ensures forall i :: 0 <= i < |frames| ==> EventsOf(rules, frames, key)[i] == EventAt(rules, frames, i)
  {
    if frames != [] {
      var n := |frames| - 1;
      var init := frames[..n];
      EventsOfKey(rules, init, key);
      assert KeyOf(frames[n]) == key;
      forall i | 0 <= i < n
        ensures EventAt(rules, init, i) == EventAt(rules, frames, i)
      {
        assert init[..i] == frames[..i];
      }
    }
  }

  lemma {:induction false} StateOfPush(rules: Rules, frames: seq<Decoded>, d: Decoded, key: BufferKey)
    requires KeyOf(d) == key
    ensures StateOf(rules, frames + [d], key) == KeyStep(rules, StateOf(rules, frames, key), d).0
  {
    assert (frames + [d])[..|frames|] == frames;
  }

  /** A frame that opens a buffer makes what came before it irrelevant. */
  lemma {:induction false} StartForgets(rules: Rules, before: seq<Decoded>, heard: seq<Decoded>, key: BufferKey)
    requires heard != [] && OfKey(heard, key) && Starts(rules, heard[0])
    ensures StateOf(rules, before + heard, key) == StateOf(rules, heard, key)
  {
    var n := |heard| - 1;
    var init, last := heard[..n], heard[n];
    assert before + heard == (before + init) + [last] && heard == init + [last];
    StateOfPush(rules, before + init, last, key);
    StateOfPush(rules, init, last, key);
    if n > 0 {
      StartForgets(rules, before, init, key);
    }
  }

  lemma {:induction false} EventInside(rules: Rules, before: seq<Decoded>, heard: seq<Decoded>, after: seq<Decoded>,
                                       key: BufferKey, i: nat)
    requires i < |heard| && OfKey(heard, key) && Starts(rules, heard[0])
    ensures EventAt(rules, before + heard + after, |before| + i) == EventAt(rules, heard, i)
  {
    var all := before + heard + after;
    assert all[..|before| + i] == before + heard[..i] && all[|before| + i] == heard[i];
    if i > 0 {
      StartForgets(rules, before, heard[..i], key);
    }
  }

  lemma {:induction false} StartedStarts(rules: Rules, state: Option<BufferState>, d: Decoded)
    requires KeyStep(rules, state, d).1 == Some(BufferedStarted(KeyOf(d)))
    ensures Starts(rules, d)
  {
  }

  lemma {:induction false} FirstInside(rules: Rules, before: seq<Decoded>, heard: seq<Decoded>, after: seq<Decoded>,
                                       key: BufferKey)
    requires heard != [] && OfKey(heard, key)
    requires EventAt(rules, before + heard + after, |before|) == Some(BufferedStarted(key))
    ensures Starts(rules, heard[0])
  {
    var all := before + heard + after;
    assert all[|before|] == heard[0];
    StartedStarts(rules, StateOf(rules, all[..|before|], key), heard[0]);
  }

  lemma {:induction false} EventsInside(rules: Rules, before: seq<Decoded>, heard: seq<Decoded>, after: seq<Decoded>,
                                        key: BufferKey, events: seq<Option<Event>>)
    requires OfKey(heard, key) && events == EventsAt(rules, before + heard + after)
    requires heard != [] && Starts(rules, heard[0])
    ensures events[|before|..|before| + |heard|] == EventsAt(rules, heard)
  {
    forall i: nat | i < |heard|
      ensures events[|before| + i] == EventAt(rules, heard, i)
    {
      EventInside(rules, before, heard, after, key, i);
    }
  }

  lemma {:induction false} DeliveryStarts(events: seq<Option<Event>>, key: BufferKey, header: seq<string>,
                                          payload: string, sum: string)
    requires IsDelivery(events, key, header, payload, sum)
    ensures events[0] == Some(BufferedStarted(key))
  {
    assert EventIs(events[0], 0, |events|, key, header, payload, sum);
  }

  lemma {:induction false} DeliveredIsDelivery(rules: Rules, heard: seq<Decoded>, key: BufferKey, header: seq<string>,
                                               payload: string)
    ensures Delivered(rules, heard, key, header, payload) <==>
            IsDelivery(EventsAt(rules, heard), key, header, payload, Checksum16(rules.crcs, payload))
  {
    var events := EventsAt(rules, heard);
    assert forall i :: 0 <= i < |heard| ==> events[i] == EventAt(rules, heard, i);
  }

  lemma {:induction false} EventsOfStream(rules: Rules, all: seq<Decoded>, key: BufferKey)
    ensures OfKey(Substream(all, key), key)
    ensures EventsOf(rules, all, key) == EventsAt(rules, Substream(all, key))
  {
    EventsOfSubstream(rules, all, key);
    SubstreamIsOfKey(all, key);
    EventsOfKey(rules, Substream(all, key), key);
  }

  /** Wherever a message's frames stand among other frames, it is delivered just as it is alone. */
  lemma {:induction false} DeliveredAnywhere(rules: Rules, all: seq<Decoded>, key: BufferKey, before: seq<Decoded>,
                                             heard: seq<Decoded>, after: seq<Decoded>,
                                             header: seq<string>, payload: string)
    requires Substream(all, key) == before + heard + after
    ensures DeliveredIn(rules, all, key, |before|, |heard|, header, payload) <==>
            Delivered(rules, heard, key, header, payload)
  {
    EventsOfStream(rules, all, key);
    KeyInside(before, heard, after, key);
    DeliveredIsDelivery(rules, heard, key, header, payload);
    if heard != [] {
      DeliveredInside(rules, before, heard, after, key, header, payload, EventsOf(rules, all, key),
                      Checksum16(rules.crcs, payload));
    }
  }

  lemma {:induction false} DeliveredInside(rules: Rules, before: seq<Decoded>, heard: seq<Decoded>, after: seq<Decoded>,
                                           key: BufferKey, header: seq<string>, payload: string,
                                           events: seq<Option<Event>>, sum: string)
    requires OfKey(heard, key) && heard != [] && events == EventsAt(rules, before + heard + after)
    ensures var s := |before|;
            IsDelivery(events[s..s + |heard|], key, header, payload, sum) <==>
            IsDelivery(EventsAt(rules, heard), key, header, payload, sum)
  {
    var part := events[|before|..|before| + |heard|];
    if Starts(rules, heard[0]) {
      EventsInside(rules, before, heard, after, key, events);
    } else {
      NotStarted(rules, before, heard, after, key);
      if IsDelivery(part, key, header, payload, sum) {
        DeliveryStarts(part, key, header, payload, sum);
      }
      if IsDelivery(EventsAt(rules, heard), key, header, payload, sum) {
        DeliveryStarts(EventsAt(rules, heard), key, header, payload, sum);
      }
    }
  }

  lemma {:induction false} KeyInside(before: seq<Decoded>, heard: seq<Decoded>, after: seq<Decoded>, key: BufferKey)
    requires OfKey(before + heard + after, key)
    ensures OfKey(heard, key)
  {
    forall i | 0 <= i < |heard|
      ensures KeyOf(heard[i]) == key
    {
      assert (before + heard + after)[|before| + i] == heard[i];
    }
  }

  lemma {:induction false} NotStarted(rules: Rules, before: seq<Decoded>, heard: seq<Decoded>, after: seq<Decoded>,
                                      key: BufferKey)
    requires heard != [] && OfKey(heard, key) && !Starts(rules, heard[0])
    ensures EventAt(rules, before + heard + after, |before|) != Some(BufferedStarted(key))
    ensures EventAt(rules, heard, 0) != Some(BufferedStarted(key))
  {
    if EventAt(rules, before + heard + after, |before|) == Some(BufferedStarted(key)) {
      FirstInside(rules, before, heard, after, key);
    }
    if EventAt(rules, heard, 0) == Some(BufferedStarted(key)) {
      StartedStarts(rules, StateOf(rules, heard[..0], key), heard[0]);
    }
  }

  // ---- what delivery says

  /** A delivered message's first frame is directed and carries the header. */
  lemma {:induction false} DeliveredHasHeader(rules: Rules, heard: seq<Decoded>, key: BufferKey, header: seq<string>,
                                              payload: string)
    requires OfKey(heard, key) && Delivered(rules, heard, key, header, payload)
    ensures |heard[0].directed| >= 3 && heard[0].directed[..3] == header
  {
    var n := |heard| - 1;
    var event := EventAt(rules, heard, n);
    assert EventIs(event, n, |heard|, key, header, payload, Checksum16(rules.crcs, payload));
    var s := CompletedIsItsFragments(rules, heard, n, event.value.result);
    assert EventIs(EventAt(rules, heard, s), s, |heard|, key, header, payload, Checksum16(rules.crcs, payload));
  }

  lemma {:induction false} DeliveredOnce(rules: Rules, heard: seq<Decoded>, key: BufferKey, header: seq<string>,
                                         a: string, b: string)
    requires Delivered(rules, heard, key, header, a) && Delivered(rules, heard, key, header, b)
    ensures a == b
  {
    var n := |heard| - 1;
    assert EventIs(EventAt(rules, heard, n), n, |heard|, key, header, a, Checksum16(rules.crcs, a));
    assert EventIs(EventAt(rules, heard, n), n, |heard|, key, header, b, Checksum16(rules.crcs, b));
  }
}
