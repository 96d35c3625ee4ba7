/**
 * low_buttons_fake: a fake button driver holding one state and one callback
 * per key.  Callbacks are identified by a handler number; invoking one is
 * recorded in `calls` (what the callback then does is outside this model).
 */
module ButtonsFake {

  import opened Common

  /** The identity of a callback; NoOp is the do-nothing callback the
      constructor installs. */
  type Handler = nat

  const NoOp: Handler := 0

  /** One callback invocation: which callback, with (key, value). */
  datatype Call = Call(handler: Handler, key: int, value: int)

  class LowButtonsFake {
    var keyState: seq<int>
    var callbacks: seq<Handler>
    var calls: seq<Call>

    ghost predicate Valid()
      reads this
    {
      |keyState| == |callbacks|
    }

    /** max_supported_keys keys, all in state 0 with the no-op callback;
        a negative number gives no keys. */
    constructor(maxSupportedKeys: int)
      ensures Valid()
      ensures |keyState| == (if maxSupportedKeys < 0 then 0 else maxSupportedKeys)
      ensures forall k :: 0 <= k < |keyState| ==> keyState[k] == 0 && callbacks[k] == NoOp
      ensures calls == []
    {
      var ks: seq<int> := [];
      var cb: seq<Handler> := [];
      var i := 0;
      while i < maxSupportedKeys
        invariant 0 <= i && (i <= maxSupportedKeys || i == 0)
        invariant |ks| == |cb| == i
        invariant forall k :: 0 <= k < i ==> ks[k] == 0 && cb[k] == NoOp
        decreases maxSupportedKeys - i
      {
        cb := cb + [NoOp];
        ks := ks + [0];
        i := i + 1;
      }
      keyState, callbacks, calls := ks, cb, [];
    }

    /** on_key(btn, callback): installs the callback; a key out of range is
        silently ignored. */
    method SetOnKey(btn: int, h: Handler)
      requires Valid()
      modifies this
      ensures Valid()
      ensures callbacks == if 0 <= btn < |old(callbacks)| then old(callbacks)[btn := h] else old(callbacks)
      ensures keyState == old(keyState) && calls == old(calls)
    {
      if 0 <= btn < |callbacks| {
        callbacks := callbacks[btn := h];
      }
    }

    /** on_key(btn): the installed callback, or None where `at` throws
        out_of_range. */
    method OnKey(btn: int) returns (r: Option<Handler>)
      ensures r.Some? <==> 0 <= btn < |callbacks|
      ensures r.Some? ==> r.value == callbacks[btn]
    {
      if 0 <= btn < |callbacks| {
        r := Some(callbacks[btn]);
      } else {
        r := None;
      }
    }

    /** keys_state: the current state of every key. */
    method KeysState() returns (r: seq<int>)
      ensures r == keyState
    {
      r := keyState;
    }

    /** trigger_button(n, v): sets key n to v and calls its callback with
        (n, v); a key out of range throws before anything changes (ok is
        false). */
    method TriggerButton(n: int, v: int) returns (ok: bool)
      requires Valid()
      modifies this
      ensures Valid()
      ensures ok <==> 0 <= n < |old(keyState)|
      ensures ok ==> keyState == old(keyState)[n := v]
      ensures ok ==> calls == old(calls) + [Call(old(callbacks)[n], n, v)]
      ensures !ok ==> keyState == old(keyState) && calls == old(calls)
      ensures callbacks == old(callbacks)
    {
      if !(0 <= n < |keyState|) {
        return false;
      }
      keyState := keyState[n := v];
      var f := callbacks[n];
      calls := calls + [Call(f, n, keyState[n])];
      ok := true;
    }

    /** trigger_button_down: trigger_button with value 1. */
    method TriggerButtonDown(n: int) returns (ok: bool)
      requires Valid()
      modifies this
      ensures Valid()
      ensures ok <==> 0 <= n < |old(keyState)|
      ensures ok ==> keyState == old(keyState)[n := 1] && calls == old(calls) + [Call(old(callbacks)[n], n, 1)]
      ensures !ok ==> keyState == old(keyState) && calls == old(calls)
      ensures callbacks == old(callbacks)
    {
      ok := TriggerButton(n, 1);
    }

    /** trigger_button_up: trigger_button with value 0. */
    method TriggerButtonUp(n: int) returns (ok: bool)
      requires Valid()
      modifies this
      ensures Valid()
      ensures ok <==> 0 <= n < |old(keyState)|
      ensures ok ==> keyState == old(keyState)[n := 0] && calls == old(calls) + [Call(old(callbacks)[n], n, 0)]
      ensures !ok ==> keyState == old(keyState) && calls == old(calls)
      ensures callbacks == old(callbacks)
    {
      ok := TriggerButton(n, 0);
    }
  }

  /** Triggering down then up on a key leaves its state 0, calls its callback
      with 1 and then 0, and leaves every other key as it was. */
  method DownUp(b: LowButtonsFake, n: int) returns (ok: bool)
    requires b.Valid() && 0 <= n < |b.keyState|
    modifies b
    ensures ok && b.Valid()
    ensures b.keyState == old(b.keyState)[n := 0]
    ensures b.calls == old(b.calls) + [Call(old(b.callbacks)[n], n, 1), Call(old(b.callbacks)[n], n, 0)]
  {
    ok := b.TriggerButtonDown(n);
    ok := b.TriggerButtonUp(n);
    assert b.keyState == old(b.keyState)[n := 1][n := 0];
  }
}
