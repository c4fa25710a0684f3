/**
 The channel object. Its body is a growing slice of an array that it shares with the message it
 dispatches, so that what must be shown is that no later frame writes into that array.
 */
module Channels {
  import opened Bytes
  import opened FieldValues
  import opened Methods
  import opened Headers
  import opened Reassembly

  /** A dispatched message; a content body is the first `len` octets of an array it does not own alone. */
  datatype Dispatch =
    | BareDispatch(command: Method<Table>)
    | ContentDispatch(command: Method<Table>, properties: Properties<Table>, arr: array<byte>, len: nat)

  function Arrays(log: seq<Dispatch>): set<object> {
    set d | d in log && d.ContentDispatch? :: d.arr
  }

  ghost predicate Sound(log: seq<Dispatch>) {
    forall d | d in log && d.ContentDispatch? :: d.len <= d.arr.Length
  }

  /** The messages as their receivers would find them now. */
  ghost function Messages(log: seq<Dispatch>): (ms: seq<Message>)
    requires Sound(log)
    reads Arrays(log)
    ensures |ms| == |log|
  {
    if log == [] then []
    else
      var front, last := log[..|log| - 1], log[|log| - 1];
      assert last in log && Arrays(front) <= Arrays(log);
      Messages(front) +
      [if last.BareDispatch? then Bare(last.command)
       else Content(last.command, last.properties, last.arr[..last.len])]
  }

  lemma OneMessage(d: Dispatch)
    requires Sound([d]) && d.ContentDispatch?
    ensures Messages([d]) == [Content(d.command, d.properties, d.arr[..d.len])] && Arrays([d]) == {d.arr}
  {
    assert [d][..0] == [] && d in [d];
  }

  class Channel {
    var recv: Recv
    var message: Option<Method<Table>>
    var header: Option<Header<Table>>
    var body: array<byte>
    var len: nat
    var log: seq<Dispatch>
    ghost var Repr: set<object>

    /** While a body is being collected, its array is in no dispatched message. */
    ghost predicate Valid()
      reads this, Repr
      ensures Valid() ==> this in Repr
    {
      && this in Repr && body in Repr && this !in Arrays(log) && Arrays(log) <= Repr
      && len <= body.Length
      && Sound(log)
      && (recv != AwaitMethod ==> body !in Arrays(log))
      && Consistent(View())
    }

    ghost function View(): State
      requires len <= body.Length && Sound(log)
      reads this, body, Arrays(log)
    {
      State(recv, message, header, body[..len], Messages(log))
    }

    /** The state of the machine, as the connection sees it. */
    ghost function Current(): (s: State)
      requires Valid()
      reads this, Repr
      ensures Consistent(s)
    {
      View()
    }

    constructor ()
      ensures Valid() && fresh(Repr) && Current() == FRESH
    {
      recv, message, header := AwaitMethod, None, None;
      body, len, log := new byte[0], 0, [];
      new;
      Repr := {this, body};
      assert body[..len] == [];
    }

    /** channel.recv on one frame; a heartbeat panics and changes nothing. */
    method Receive(f: Received) returns (panicked: bool)
      requires Valid()
      modifies Repr
      ensures Valid() && fresh(Repr - old(Repr))
      ensures panicked <==> !Expected(f)
      ensures Current() == if panicked then old(Current()) else Step(old(Current()), f)
    {
      panicked := f.HeartbeatFrame?;
      if panicked {
        return;
      }
      match recv
      case AwaitMethod => ReceiveMethod(f);
      case AwaitHeader => ReceiveHeader(f);
      case AwaitContent => ReceiveContent(f);
    }

    method ReceiveMethod(f: Received)
      requires Valid() && Expected(f)
      modifies this
      ensures Valid() && fresh(Repr - old(Repr))
      ensures View() == RecvMethod(old(View()), f)
    {
      if f.MethodFrame? {
        if CarriesContent(f.command.name) {
          Await(f.command);
        } else {
          DispatchMessage(BareDispatch(f.command));
          recv := AwaitMethod;
        }
      } else {
        recv := AwaitMethod;
      }
    }

    /** A content method: its body will have an array of its own. */
    method Await(m: Method<Table>)
      requires Valid()
      modifies this
      ensures Valid() && fresh(Repr - old(Repr))
      ensures View() == old(View()).(body := [], message := Some(m), recv := AwaitHeader)
    {
      hide Messages;
      body, len := new byte[0], 0;
      message, recv := Some(m), AwaitHeader;
      Repr := Repr + {body};
      assert body[..len] == [];
    }

    /** dispatch, as far as this model goes: the message is handed out. */
    method DispatchMessage(d: Dispatch)
      requires Sound(log) && Sound([d]) && this !in Arrays(log) && this !in Arrays([d])
      modifies this`log
      ensures log == old(log) + [d] && Sound(log) && Arrays(log) == Arrays(old(log)) + Arrays([d])
      ensures Messages(log) == old(Messages(log)) + Messages([d])
    {
      log := log + [d];
      assert log[..|log| - 1] == old(log);
      assert [d][..0] == [];
      assert Messages(old(log)) == old(Messages(log));
    }

    method ReceiveHeader(f: Received)
      requires Valid() && Expected(f) && recv == AwaitHeader
      modifies this
      ensures Valid() && fresh(Repr - old(Repr))
      ensures View() == RecvHeader(old(View()), f)
    {
      if f.MethodFrame? {
        ReceiveMethod(f);
      } else if f.HeaderFrame? {
        header := Some(f.header);
        if f.header.size == 0 {
          CompleteMessage();
        } else {
          recv := AwaitContent;
        }
      } else {
        recv := AwaitMethod;
      }
    }

    /** setContent and dispatch: from here on the body's array belongs to the message as well. */
    method CompleteMessage()
      requires this in Repr && body in Repr && this !in Arrays(log) && Arrays(log) <= Repr
      requires len <= body.Length && Sound(log) && message.Some? && header.Some?
      modifies this`log, this`recv
      ensures Valid()
      ensures View() == old(View()).(recv := AwaitMethod,
        log := old(View()).log + [Content(message.value, header.value.properties, body[..len])])
    {
      var d := ContentDispatch(message.value, header.value.properties, body, len);
      OneMessage(d);
      DispatchMessage(d);
      recv := AwaitMethod;
    }

    method ReceiveContent(f: Received)
      requires Valid() && Expected(f) && recv == AwaitContent
      modifies this, body
      ensures Valid() && fresh(Repr - old(Repr))
      ensures View() == RecvContent(old(View()), f)
    {
      if f.MethodFrame? {
        ReceiveMethod(f);
      } else if f.BodyFrame? {
        Append(f.body);
        if len >= header.value.size {
          CompleteMessage();
        } else {
          recv := AwaitContent;
        }
      } else {
        recv := AwaitMethod;
      }
    }

    /** Go's append: in place while the capacity lasts, else into a larger array of some size. */
    method Append(b: bytes)
      requires this in Repr && body in Repr && len <= body.Length && header.Some?
      requires Sound(log) && this !in Arrays(log) && body !in Arrays(log) && Arrays(log) <= Repr
      modifies this`body, this`len, this`Repr, body
      ensures old(Repr) + {body} <= Repr && fresh(Repr - old(Repr))
      ensures body == old(body) || fresh(body)
      ensures len <= body.Length && body[..len] == old(body[..len]) + b
      ensures Messages(log) == old(Messages(log)) && body !in Arrays(log)
    {
      hide Messages;
      MakeRoom(len + |b|);
      ghost var messages := Messages(log);
      CopyIn(b);
      assert Messages(log) == messages;
    }

    /** The first body frame reserves the declared size, which may not be enough. */
    method MakeRoom(needed: nat)
      requires this in Repr && body in Repr && len <= body.Length && len <= needed && header.Some?
      requires Sound(log) && this !in Arrays(log) && body !in Arrays(log) && Arrays(log) <= Repr
      modifies this`body, this`Repr
      ensures old(Repr) <= Repr && fresh(Repr - old(Repr)) && body in Repr
      ensures body == old(body) || fresh(body)
      ensures needed <= body.Length && body[..len] == old(body[..len])
      ensures Messages(log) == old(Messages(log)) && body !in Arrays(log)
    {
      hide Messages;
      if body.Length == 0 {
        Reserve(header.value.size);
      }
      if body.Length < needed {
        var capacity: nat :| needed <= capacity;
        Reserve(capacity);
      }
    }

    method CopyIn(b: bytes)
      requires len + |b| <= body.Length
      modifies this`len, body
      ensures len <= body.Length && body[..len] == old(body[..len]) + b
    {
      forall k | 0 <= k < |b| {
        body[len + k] := b[k];
      }
      len := len + |b|;
    }

    /** A new array with what has been collected so far at its start. */
    method Reserve(capacity: nat)
      requires len <= body.Length && len <= capacity
      modifies this`body, this`Repr
      ensures fresh(body) && body.Length == capacity
      ensures Repr == old(Repr) + {body}
      ensures body[..len] == old(body[..len])
    {
      var grown := new byte[capacity](_ => 0);
      forall k | 0 <= k < len {
        grown[k] := body[k];
      }
      body := grown;
      Repr := Repr + {body};
    }
  }
}
