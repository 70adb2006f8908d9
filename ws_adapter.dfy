/** The WebSocket adapter handed to the RPC engine (server/src/adapters/ws-adapter.ts,
    and its copy server/src/ws-adapter.ts): a registry from event type to an
    insertion-ordered set of listeners, a dispatch entry point for the host's
    hooks, and send/close forwarded to the host socket. */
module WsAdapters {
  import opened Wrappers

  /** A listener function, known by its identity (JavaScript compares functions by reference). */
  datatype Listener = Listener(id: nat)

  /** `string | ArrayBuffer | Uint8Array`: a text frame, or bytes in one of the two binary kinds. */
  datatype Payload =
    | Text(text: string)
    | ArrayBuffer(bytes: seq<bv8>)
    | Uint8Array(bytes: seq<bv8>)

  /** An operation the host socket received. */
  datatype SocketOp =
    | Sent(data: Payload)
    | Closed(code: Option<int>, reason: Option<string>)

  /** The host socket, observed through the operations it receives. */
  class Socket {
    var log: seq<SocketOp>

    constructor ()
      ensures log == []
    {
      log := [];
    }

    method Send(data: Payload)
      modifies this
      ensures log == old(log) + [Sent(data)]
    {
      log := log + [Sent(data)];
    }

    method Close(code: Option<int>, reason: Option<string>)
      modifies this
      ensures log == old(log) + [Closed(code, reason)]
    {
      log := log + [Closed(code, reason)];
    }
  }

  ghost predicate NoDuplicates(s: seq<Listener>)
  {
    forall i, j :: 0 <= i < j < |s| ==> s[i] != s[j]
  }

  /** `Set.prototype.add` on an insertion-ordered set: existing members keep their
      places, and `x` is appended only if it is not a member yet. */
  function SetAdd(s: seq<Listener>, x: Listener): (r: seq<Listener>)
    ensures s <= r && |r| <= |s| + 1 && x in r
    ensures x in s ==> r == s
    ensures NoDuplicates(s) ==> NoDuplicates(r)
  {
    if x in s then s else s + [x]
  }

  /** `Set.prototype.delete`: the members other than `x`, in their order. */
  function SetDelete(s: seq<Listener>, x: Listener): (r: seq<Listener>)
    ensures forall y :: y in r <==> y in s && y != x
    ensures x !in s ==> r == s
    ensures NoDuplicates(s) ==> NoDuplicates(r)
  {
    if s == [] then []
    else if s[0] == x then SetDelete(s[1..], x)
    else
      var rest := SetDelete(s[1..], x);
      assert NoDuplicates(s) ==> s[0] !in rest;
      [s[0]] + rest
  }

  /** Deleting a member removes exactly its one occurrence; the others keep
      their relative order. */
  lemma {:induction false} SetDeleteAt(s: seq<Listener>, i: int)
    requires NoDuplicates(s)
    requires 0 <= i < |s|
    ensures SetDelete(s, s[i]) == s[..i] + s[i + 1..]
  {
    if i == 0 {
      assert s[0] !in s[1..];
    } else {
      assert s[0] != s[i];
      SetDeleteAt(s[1..], i - 1);
      assert s[1..][i - 1] == s[i];
      assert s[1..][..i - 1] == s[1..i];
      assert s[1..][i..] == s[i + 1..];
      assert [s[0]] + s[1..i] == s[..i];
    }
  }

  /** Delete undoes an add of a listener that was not registered yet. */
  lemma SetDeleteUndoesSetAdd(s: seq<Listener>, x: Listener)
    requires NoDuplicates(s)
    requires x !in s
    ensures SetDelete(SetAdd(s, x), x) == s
  {
    SetDeleteAt(s + [x], |s|);
    assert (s + [x])[..|s|] == s;
  }

  /** The adapter the RPC engine talks to. */
  class WsAdapter {
    var listeners: map<string, seq<Listener>>
    const ws: Socket

    /** Every registered collection of listeners is a set. */
    ghost predicate Valid()
      reads this
    {
      forall t :: t in listeners ==> NoDuplicates(listeners[t])
    }

    /** The listeners of type `t` in insertion order; none when `t` has no set. */
    function RegisteredFor(t: string): (r: seq<Listener>)
      reads this
    {
      if t in listeners then listeners[t] else []
    }

    constructor (ws: Socket)
      ensures Valid() && this.ws == ws && listeners == map[]
    {
      this.ws := ws;
      listeners := map[];
    }

    /** Registers `cb` for `t`, creating the set on first use. */
    method AddEventListener(t: string, cb: Listener)
      requires Valid()
      modifies this
      ensures Valid()
      ensures listeners == old(listeners)[t := SetAdd(old(RegisteredFor(t)), cb)]
      ensures t !in old(listeners) ==> listeners[t] == [cb]
      ensures cb in old(RegisteredFor(t)) ==> listeners == old(listeners)
      ensures listeners.Keys == old(listeners.Keys) + {t}
      ensures forall u :: u != t ==> RegisteredFor(u) == old(RegisteredFor(u))
    {
      if t !in listeners {
        listeners := listeners[t := []];
      }
      listeners := listeners[t := SetAdd(listeners[t], cb)];
    }

    /** Unregisters `cb` for `t`; an unknown type or listener is no error. The key stays. */
    method RemoveEventListener(t: string, cb: Listener)
      requires Valid()
      modifies this
      ensures Valid()
      ensures t in old(listeners) ==> listeners == old(listeners)[t := SetDelete(old(listeners)[t], cb)]
      ensures cb !in old(RegisteredFor(t)) ==> listeners == old(listeners)
      ensures listeners.Keys == old(listeners.Keys)
      ensures forall u :: u != t ==> RegisteredFor(u) == old(RegisteredFor(u))
    {
      if t in listeners {
        listeners := listeners[t := SetDelete(listeners[t], cb)];
      }
    }

    /** Calls every listener of `t` with `ev`, in insertion order; returns the calls made. */
    method Dispatch<E>(t: string, ev: E) returns (calls: seq<(Listener, E)>)
      requires Valid()
      ensures |calls| == |RegisteredFor(t)|
      ensures forall k :: 0 <= k < |calls| ==> calls[k] == (RegisteredFor(t)[k], ev)
      ensures forall k, m :: 0 <= k < m < |calls| ==> calls[k].0 != calls[m].0
    {
      calls := [];
      if t in listeners {
        var registered := listeners[t];
        var i := 0;
        while i < |registered|
          invariant 0 <= i <= |registered|
          invariant |calls| == i
          invariant forall k :: 0 <= k < i ==> calls[k] == (registered[k], ev)
        {
          calls := calls + [(registered[i], ev)];
          i := i + 1;
        }
      }
    }

    /** Forwards `data` to the socket untouched. */
    method Send(data: Payload)
      modifies ws
      ensures ws.log == old(ws.log) + [Sent(data)]
    {
      ws.Send(data);
    }

    /** Forwards the optional code and reason to the socket untouched. */
    method Close(code: Option<int>, reason: Option<string>)
      modifies ws
      ensures ws.log == old(ws.log) + [Closed(code, reason)]
    {
      ws.Close(code, reason);
    }
  }
}
