/** The confirms object: its methods carry out the steps of Resequencing in place. */
module PublisherConfirms {
  import opened Bytes
  import R = Resequencing

  type Confirmation = R.Confirmation

  /** emitted and finished are history: what confirm was called with, and the closed listeners. */
  class Confirms {
    var published: uint64
    var expecting: uint64
    var sequencer: map<uint64, Confirmation>
    var listeners: seq<R.Listener>
    var emitted: seq<Confirmation>
    var finished: seq<R.Finished>

    ghost function View(): R.Confirms
      reads this
    {
      R.Confirms(published, expecting, sequencer, emitted, listeners, finished)
    }

    constructor ()
      ensures View() == R.NEW
    {
      published, expecting, sequencer := 0, 1, map[];
      listeners, emitted, finished := [], [], [];
    }

    method Listen()
      modifies this
      ensures View() == R.Apply(old(View()), R.Listen)
    {
      listeners := listeners + [R.Listener(|emitted|, [])];
    }

    method Publish() returns (tag: uint64)
      modifies this
      ensures View() == R.Apply(old(View()), R.Publish)
      ensures tag == published
    {
      published := R.Increment(published);
      tag := published;
    }

    method Confirm(confirmation: Confirmation)
      modifies this
      ensures View() == R.Confirm(old(View()), confirmation)
    {
      sequencer := sequencer - {expecting};
      expecting := R.Increment(expecting);
      emitted := emitted + [confirmation];
      ghost var before := listeners;
      for i := 0 to |listeners|
        invariant |listeners| == |before|
        invariant forall k | 0 <= k < i :: listeners[k] == R.Told(before, confirmation)[k]
        invariant forall k | i <= k < |before| :: listeners[k] == before[k]
        invariant View().(listeners := before) == old(View()).(
          stash := old(sequencer) - {old(expecting)}, expecting := R.Increment(old(expecting)), emitted := old(emitted) + [confirmation])
      {
        listeners := listeners[i := listeners[i].(received := listeners[i].received + [confirmation])];
      }
      assert listeners == R.Told(before, confirmation);
    }

    method Resequence()
      modifies this
      ensures View() == R.Resequence(old(View()))
    {
      while expecting <= published
        invariant R.Resequence(View()) == R.Resequence(old(View()))
        decreases |sequencer|
      {
        if expecting !in sequencer {
          return;
        }
        R.StashShrinks(View());
        Confirm(sequencer[expecting]);
      }
    }

    method One(confirmed: Confirmation)
      modifies this
      ensures View() == R.One(old(View()), confirmed)
    {
      if expecting == confirmed.tag {
        Confirm(confirmed);
      } else {
        sequencer := sequencer[confirmed.tag := confirmed];
      }
      Resequence();
    }

    /** On the largest tag, and only there, the loop does not end: an outcome that says nothing of the state. */
    method Multiple(confirmed: Confirmation) returns (endless: bool)
      modifies this
      ensures endless <==> forall n :: R.Rounds(old(View()), confirmed.ack, n).expecting <= confirmed.tag
      ensures !endless ==> confirmed.tag < R.TAG_LIMIT
      ensures !endless ==> View() == R.Apply(old(View()), R.ConfirmMultiple(confirmed))
    {
      R.MultipleEndsExactlyBelowTheLimit(View(), confirmed);
      endless := confirmed.tag == R.TAG_LIMIT;
      if endless {
        return;
      }
      while expecting <= confirmed.tag
        invariant R.UpTo(View(), confirmed) == R.UpTo(old(View()), confirmed)
        decreases confirmed.tag + 1 - expecting
      {
        Confirm(R.Confirmation(expecting, confirmed.ack));
      }
      Resequence();
    }

    method Close()
      modifies this
      ensures View() == R.Apply(old(View()), R.Close)
    {
      for i := 0 to |listeners|
        invariant View().(finished := old(finished)) == old(View())
        invariant finished == old(finished) + R.Closed(listeners, |emitted|)[..i]
      {
        finished := finished + [R.Finished(listeners[i], |emitted|)];
      }
      assert R.Closed(listeners, |emitted|)[..|listeners|] == R.Closed(listeners, |emitted|);
      listeners := [];
    }
  }
}
