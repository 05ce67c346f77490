/** The specification of the shared table: a map on which every operation takes effect in one step. */
module AtomicMap {
  import opened Hashing
  import opened Tables
  import opened Protocol

  /** What an operation returns, and what it makes of the map, when it takes effect on map m. */
  ghost predicate Effect(m: map<Key, Value>, op: Op, res: Reply, m': map<Key, Value>)
  {
    match op
    case Find(k) => m' == m && res == if k in m then Got(m[k]) else Missing
    case Contains(k) => m' == m && res == if k in m then Yes else No
    case Insert(k, v) => if k in m then res == No && m' == m else res == Yes && m' == m[k := v]
    case Erase(k) => res == (if k in m then Yes else No) && m' == m - {k}
    case Update(k, v) => if k in m then res == Yes && m' == m[k := v] else res == No && m' == m
    case UpdateFn(k, fn) => if k in m then res == Yes && m' == m[k := fn(m[k])] else res == No && m' == m
    case Upsert(k, fn, v) => res == Unit && m' == if k in m then m[k := fn(m[k])] else m[k := v]
  }

  /** The same for an operation on the whole map. */
  ghost predicate WholeEffect(m: map<Key, Value>, call: WholeOp, reply: WholeReply, m': map<Key, Value>)
  {
    match call
    case Clear => reply == Cleared && m' == map[]
    case List => reply == Listed(m) && m' == m
  }

  /** A client: not in an operation, inside one that has not taken effect, or about to return from one. `missed`
    * says that the key of the operation has been missing from the map since the call. */
  datatype Client =
    | Outside
    | Called(op: Op, missed: bool)
    | Returning(op: Op, res: Reply)
    | CalledWhole(call: WholeOp)
    | ReturningWhole(call: WholeOp, reply: WholeReply)

  /** What a step shows to the outside: that an operation is called, or that it returns. */
  datatype Event =
    | Internal
    | Calls(op: Op)
    | Returns(op: Op, res: Reply)
    | CallsWhole(call: WholeOp)
    | ReturnsWhole(call: WholeOp, reply: WholeReply)

  datatype Label = Label(thread: nat, event: Event)

  datatype Spec = Spec(contents: map<Key, Value>, clients: seq<Client>)

  /** The effect of a call that will answer with event e. Only an insertion throws; it changes nothing. */
  ghost predicate Fixes(m: map<Key, Value>, e: Event, m': map<Key, Value>)
  {
    match e
    case Returns(op, res) => if res == Threw then IsInserter(op) && m' == m else Effect(m, op, res, m')
    case ReturnsWhole(call, reply) => WholeEffect(m, call, reply, m')
    case _ => false
  }

  predicate IsReturn(e: Event)
  {
    e.Returns? || e.ReturnsWhole?
  }

  /** The client is in a call that began with event e and has not taken effect. */
  ghost predicate InCall(c: Client, e: Event)
  {
    match c
    case Called(op, _) => e == Calls(op)
    case CalledWhole(call) => e == CallsWhole(call)
    case _ => false
  }

  /** The client is about to return with event e. */
  ghost predicate WillReturn(c: Client, e: Event)
  {
    match c
    case Returning(op, res) => e == Returns(op, res)
    case ReturningWhole(call, reply) => e == ReturnsWhole(call, reply)
    case _ => false
  }

  /** How the call began that returns with event e. */
  function CallOf(e: Event): Event
    requires IsReturn(e)
  {
    if e.Returns? then Calls(e.op) else CallsWhole(e.call)
  }

  /** A client that has been called notes that its key is missing from the map, or forgets it. */
  ghost predicate Notes(m: map<Key, Value>, c: Client, c': Client)
  {
    c.Called? && c'.Called? && c'.op == c.op && (c'.missed ==> c.missed || c.op.key !in m)
  }

  /** A client's call takes effect, once and for all. It throws only if its key has been missing from the map. */
  ghost predicate TakesEffect(m: map<Key, Value>, c: Client, e: Event, m': map<Key, Value>, c': Client)
  {
    && IsReturn(e) && InCall(c, CallOf(e)) && WillReturn(c', e) && Fixes(m, e, m')
    && (e.Returns? && e.res == Threw ==> c.missed)
  }

  /** A client calls or returns, which the event says, or takes effect, or nothing visible happens. */
  ghost predicate ClientStep(m: map<Key, Value>, c: Client, e: Event, m': map<Key, Value>, c': Client)
  {
    match e
    case Internal => (m' == m && (c' == c || Notes(m, c, c'))) || exists ret :: TakesEffect(m, c, ret, m', c')
    case Calls(op) => m' == m && c == Outside && c' == Called(op, false)
    case CallsWhole(call) => m' == m && c == Outside && c' == CalledWhole(call)
    case Returns(_, _) => m' == m && WillReturn(c, e) && c' == Outside
    case ReturnsWhole(_, _) => m' == m && WillReturn(c, e) && c' == Outside
  }

  ghost predicate SpecStep(a: Spec, l: Label, a': Spec)
  {
    && l.thread < |a.clients| == |a'.clients|
    && (forall u :: 0 <= u < |a.clients| && u != l.thread ==> a'.clients[u] == a.clients[u])
    && ClientStep(a.contents, a.clients[l.thread], l.event, a'.contents, a'.clients[l.thread])
  }

  /** A run of the atomic map with what its steps show, starting with every client outside. */
  ghost predicate IsSpecRun(specs: seq<Spec>, labels: seq<Label>)
  {
    && |specs| == |labels| + 1
    && (forall t :: 0 <= t < |specs[0].clients| ==> specs[0].clients[t] == Outside)
    && forall i :: 0 <= i < |labels| ==> SpecStep(specs[i], labels[i], specs[i + 1])
  }

  // ----- What a run of the atomic map means for each call -----

  /** From i + 1 up to j client t only takes internal steps, and none of them changes the map. */
  ghost predicate Waits(specs: seq<Spec>, labels: seq<Label>, t: nat, i: nat, j: nat)
    requires j <= |labels| < |specs|
  {
    forall m :: i < m < j && labels[m].thread == t ==>
      labels[m].event == Internal && specs[m + 1].contents == specs[m].contents
  }

  /** At some point after step i, up to and including state j, the key is not in the map. */
  ghost predicate MissingWithin(specs: seq<Spec>, i: nat, j: nat, key: Key)
  {
    exists n :: i < n <= j < |specs| && key !in specs[n].contents
  }

  lemma CallStep(a: Spec, l: Label, a': Spec, t: nat, e: Event)
    requires SpecStep(a, l, a') && t < |a.clients| && InCall(a'.clients[t], e)
    ensures if InCall(a.clients[t], e) then l.thread == t ==> l.event == Internal && a'.contents == a.contents
            else l == Label(t, e)
    ensures a'.clients[t].Called? && a'.clients[t].missed ==>
      InCall(a.clients[t], e) && (a.clients[t].missed || e.op.key !in a.contents)
  {
    hide Effect, WholeEffect, Fixes;
  }

  lemma {:induction false} CallBegan(specs: seq<Spec>, labels: seq<Label>, j: nat, t: nat, e: Event)
    returns (i: nat)
    requires IsSpecRun(specs, labels) && j <= |labels| && t < |specs[j].clients| && InCall(specs[j].clients[t], e)
    ensures i < j && labels[i] == Label(t, e) && Waits(specs, labels, t, i, j)
    ensures specs[j].clients[t].Called? && specs[j].clients[t].missed ==> MissingWithin(specs, i, j, e.op.key)
  {
    hide SpecStep;
    i := 0;
    if j > 0 {
      assert SpecStep(specs[j - 1], labels[j - 1], specs[j - 1 + 1]);
      SameClients(specs[j - 1], labels[j - 1], specs[j]);
      CallStep(specs[j - 1], labels[j - 1], specs[j], t, e);
      if InCall(specs[j - 1].clients[t], e) {
        i := CallBegan(specs, labels, j - 1, t, e);
        if specs[j].clients[t].Called? && specs[j].clients[t].missed && !specs[j - 1].clients[t].missed {
          assert e.op.key !in specs[j - 1].contents;
        }
      } else {
        i := j - 1;
      }
    }
  }

  lemma SameClients(a: Spec, l: Label, a': Spec)
    requires SpecStep(a, l, a')
    ensures |a.clients| == |a'.clients|
  {
  }

  /** The step at k is where client t's call, made at i, takes effect. */
  ghost predicate EffectAt(specs: seq<Spec>, labels: seq<Label>, t: nat, e: Event, i: nat, k: nat, j: nat)
    requires IsReturn(e) && j <= |labels| < |specs|
  {
    && i < k < j
    && labels[i] == Label(t, CallOf(e)) && labels[k] == Label(t, Internal)
    && Waits(specs, labels, t, i, k) && Waits(specs, labels, t, k, j)
    && Fixes(specs[k].contents, e, specs[k + 1].contents)
    && (e.Returns? && e.res == Threw ==> MissingWithin(specs, i, k, e.op.key))
  }

  lemma ReturnStep(a: Spec, l: Label, a': Spec, t: nat, e: Event)
    requires SpecStep(a, l, a') && t < |a.clients| && IsReturn(e) && WillReturn(a'.clients[t], e)
    ensures if WillReturn(a.clients[t], e) then l.thread == t ==> l.event == Internal && a'.contents == a.contents
            else l == Label(t, Internal) && TakesEffect(a.contents, a.clients[t], e, a'.contents, a'.clients[t])
  {
    hide Effect, WholeEffect, Fixes;
  }

  lemma {:induction false} EffectBefore(specs: seq<Spec>, labels: seq<Label>, j: nat, t: nat, e: Event)
    returns (i: nat, k: nat)
    requires IsSpecRun(specs, labels) && j <= |labels| && t < |specs[j].clients|
    requires IsReturn(e) && WillReturn(specs[j].clients[t], e)
    ensures EffectAt(specs, labels, t, e, i, k, j)
  {
    hide SpecStep, Fixes;
    i, k := 0, 0;
    if j > 0 {
      assert SpecStep(specs[j - 1], labels[j - 1], specs[j - 1 + 1]);
      SameClients(specs[j - 1], labels[j - 1], specs[j]);
      ReturnStep(specs[j - 1], labels[j - 1], specs[j], t, e);
      if WillReturn(specs[j - 1].clients[t], e) {
        i, k := EffectBefore(specs, labels, j - 1, t, e);
      } else {
        k := j - 1;
        i := CallBegan(specs, labels, k, t, CallOf(e));
      }
    }
  }

  /** Every answer in a run was fixed in one step between the call and the return, on the map as it then was. No
    * other step of that client changes the map meanwhile, and what is thrown leaves it alone. */
  lemma AnswerFixedOnce(specs: seq<Spec>, labels: seq<Label>, j: nat) returns (i: nat, k: nat)
    requires IsSpecRun(specs, labels) && j < |labels| && IsReturn(labels[j].event)
    ensures EffectAt(specs, labels, labels[j].thread, labels[j].event, i, k, j)
  {
    assert SpecStep(specs[j], labels[j], specs[j + 1]);
    hide Fixes;
    i, k := EffectBefore(specs, labels, j, labels[j].thread, labels[j].event);
  }
}
