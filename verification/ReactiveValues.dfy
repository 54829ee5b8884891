// reactive/value.go: one observable value with its watchers.
module ReactiveValues {
  import opened Basics
  import opened Messages

  // What reading a path gives: None once the config is deleted.
  type Reading = Option<Field>

  // A deleted config reads like an empty one.
  function Observed(r: Reading, zero: Field): Field {
    if r.Some? then r.value else zero
  }

  datatype Call = Call(revision: int, value: Reading)

  function Sent(channels: map<nat, seq<Reading>>, v: Reading): map<nat, seq<Reading>> {
    map k | k in channels :: channels[k] + [v]
  }

  function Called(funcs: map<nat, seq<Call>>, call: Call): map<nat, seq<Call>> {
    map k | k in funcs :: funcs[k] + [call]
  }

  // Before the first update nothing was delivered; afterwards the last delivery is the current value.
  ghost predicate Delivered(ch: seq<Reading>, pendingInit: bool, value: Reading, zero: Field) {
    if pendingInit then ch == [] else ch != [] && Observed(ch[|ch| - 1], zero) == Observed(value, zero)
  }

  ghost predicate DeliveredCalls(calls: seq<Call>, pendingInit: bool, value: Reading, zero: Field) {
    if pendingInit then calls == []
    else calls != [] && Observed(calls[|calls| - 1].value, zero) == Observed(value, zero)
  }

  ghost predicate AllDelivered(channels: map<nat, seq<Reading>>, funcs: map<nat, seq<Call>>, pendingInit: bool,
      value: Reading, zero: Field) {
    && (forall k | k in channels :: Delivered(channels[k], pendingInit, value, zero))
    && (forall k | k in funcs :: DeliveredCalls(funcs[k], pendingInit, value, zero))
  }

  lemma DeliveredByNotify(channels: map<nat, seq<Reading>>, funcs: map<nat, seq<Call>>, rev: int, v: Reading,
      zero: Field)
    ensures AllDelivered(Sent(channels, v), Called(funcs, Call(rev, v)), false, v, zero)
  {
  }

  lemma DeliveredUnchanged(channels: map<nat, seq<Reading>>, funcs: map<nat, seq<Call>>, was: Reading, v: Reading,
      zero: Field)
    requires AllDelivered(channels, funcs, false, was, zero) && Observed(was, zero) == Observed(v, zero)
    ensures AllDelivered(channels, funcs, false, v, zero)
  {
  }

  class ReactiveValue {
    var rev: int
    var pendingInit: bool
    var value: Reading
    // Everything sent on each watch channel, and every call of each watch function.
    var watchChannels: map<nat, seq<Reading>>
    var watchFuncs: map<nat, seq<Call>>
    var nextKey: nat

    ghost predicate Coherent(zero: Field)
      reads this
    {
      && (forall k | k in watchChannels :: k < nextKey)
      && (forall k | k in watchFuncs :: k < nextKey)
      && AllDelivered(watchChannels, watchFuncs, pendingInit, value, zero)
    }

    constructor ()
      ensures pendingInit && watchChannels == map[] && watchFuncs == map[]
    {
      pendingInit, rev, value := true, 0, None;
      watchChannels, watchFuncs, nextKey := map[], map[], 0;
    }

    // Stores the value; tells the watchers on request or the first time.
    method Update(rev: int, v: Reading, notify: bool, ghost zero: Field)
      modifies this
      ensures !pendingInit && value == v && this.rev == rev && nextKey == old(nextKey)
      ensures old(Coherent(zero)) && (notify || old(pendingInit) || Observed(v, zero) == old(Observed(value, zero))) ==>
                Coherent(zero)
      ensures watchChannels.Keys == old(watchChannels.Keys) && watchFuncs.Keys == old(watchFuncs.Keys)
      ensures forall k | k in watchChannels ::
                watchChannels[k] == old(watchChannels)[k] + if notify || old(pendingInit) then [v] else []
      ensures forall k | k in watchFuncs ::
                watchFuncs[k] == old(watchFuncs)[k] + if notify || old(pendingInit) then [Call(rev, v)] else []
    {
      hide AllDelivered;
      this.rev := rev;
      value := v;
      if pendingInit {
        pendingInit := false;
      } else if !notify {
        if AllDelivered(watchChannels, watchFuncs, false, old(value), zero) &&
            Observed(v, zero) == Observed(old(value), zero) {
          DeliveredUnchanged(watchChannels, watchFuncs, old(value), v, zero);
        }
        return;
      }
      DeliveredByNotify(watchChannels, watchFuncs, rev, v, zero);
      NotifyChannels(v);
      NotifyFuncs(Call(rev, v));
    }

    method NotifyChannels(v: Reading)
      modifies this`watchChannels
      ensures watchChannels == Sent(old(watchChannels), v)
    {
      var todo := watchChannels.Keys;
      while todo != {}
        invariant todo <= watchChannels.Keys == old(watchChannels.Keys)
        invariant forall k | k in watchChannels ::
                    watchChannels[k] == old(watchChannels)[k] + if k in todo then [] else [v]
        decreases todo
      {
        var k :| k in todo;
        watchChannels := watchChannels[k := watchChannels[k] + [v]];
        todo := todo - {k};
      }
    }

    method NotifyFuncs(call: Call)
      modifies this`watchFuncs
      ensures watchFuncs == Called(old(watchFuncs), call)
    {
      var todo := watchFuncs.Keys;
      while todo != {}
        invariant todo <= watchFuncs.Keys == old(watchFuncs.Keys)
        invariant forall k | k in watchFuncs ::
                    watchFuncs[k] == old(watchFuncs)[k] + if k in todo then [] else [call]
        decreases todo
      {
        var k :| k in todo;
        watchFuncs := watchFuncs[k := watchFuncs[k] + [call]];
        todo := todo - {k};
      }
    }

    // A new watch starts with the current value, if there is one.
    method Watch(ghost zero: Field) returns (key: nat)
      requires Coherent(zero)
      modifies this`watchChannels, this`nextKey
      ensures Coherent(zero) && key !in old(watchChannels)
      ensures watchChannels == old(watchChannels)[key := if pendingInit then [] else [value]]
    {
      key := nextKey;
      watchChannels := watchChannels[key := if pendingInit then [] else [value]];
      nextKey := nextKey + 1;
    }

    method WatchFunc(ghost zero: Field) returns (key: nat)
      requires Coherent(zero)
      modifies this`watchFuncs, this`nextKey
      ensures Coherent(zero) && key !in old(watchFuncs)
      ensures watchFuncs == old(watchFuncs)[key := if pendingInit then [] else [Call(rev, value)]]
    {
      key := nextKey;
      watchFuncs := watchFuncs[key := if pendingInit then [] else [Call(rev, value)]];
      nextKey := nextKey + 1;
    }

    // The context of a watch is done.
    method Unwatch(key: nat, ghost zero: Field)
      requires Coherent(zero)
      modifies this`watchChannels, this`watchFuncs
      ensures Coherent(zero) && watchChannels == old(watchChannels) - {key} && watchFuncs == old(watchFuncs) - {key}
    {
      watchChannels, watchFuncs := watchChannels - {key}, watchFuncs - {key};
    }
  }
}
