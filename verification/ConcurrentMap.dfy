/** The blocking map: `Get` waits on a per-key channel until some `Put` stores the key and closes the
    channel. First the protocol over any number of interleaved threads, then the map itself. */
module ConcurrentMap {
  import opened Data

  /** What the mutex protects, and which channels are closed. */
  datatype MapState<V, Ch> = MapState(mp: map<string, V>, keyToCh: map<string, Ch>, closed: set<Ch>)

  /** `Put`'s critical section. The channel is closed unless receiving from it shows it already is. */
  function Stored<V, Ch>(m: MapState<V, Ch>, k: string, v: V): MapState<V, Ch> {
    MapState(m.mp[k := v], m.keyToCh, if k in m.keyToCh then m.closed + {m.keyToCh[k]} else m.closed)
  }

  /** `Get`'s first critical section when the key is absent; `ch` is used if a channel is needed. */
  function Registered<V, Ch>(m: MapState<V, Ch>, k: string, ch: Ch): MapState<V, Ch> {
    if k in m.keyToCh then m else m.(keyToCh := m.keyToCh[k := ch])
  }

  /** Between the critical sections of `Get`: blocked on a channel, or past it. */
  datatype Thread<Ch> = Waiting(key: string, ch: Ch) | Woken(key: string)

  datatype System<V, Ch> = System(m: MapState<V, Ch>, threads: map<nat, Thread<Ch>>)

  datatype Event<V, Ch> =
    | Put(key: string, value: V)
    | Enter(thread: nat, key: string, ch: Ch)
    | TimeOut(thread: nat)
    | Wake(thread: nat)
    | Read(thread: nat)

  /** A timeout may win even when the channel is closed: both cases of the select can be ready. */
  predicate Enabled<V, Ch(==)>(s: System<V, Ch>, e: Event<V, Ch>) {
    match e
    case Put(_, _) => true
    case Enter(t, k, ch) =>
      t !in s.threads
      && (k !in s.m.mp && k !in s.m.keyToCh ==> ch !in s.m.closed && ch !in s.m.keyToCh.Values)
    case TimeOut(t) => t in s.threads && s.threads[t].Waiting?
    case Wake(t) => t in s.threads && s.threads[t].Waiting? && s.threads[t].ch in s.m.closed
    case Read(t) => t in s.threads && s.threads[t].Woken?
  }

  function Step<V, Ch>(s: System<V, Ch>, e: Event<V, Ch>): System<V, Ch>
    requires Enabled(s, e)
  {
    match e
    case Put(k, v) => s.(m := Stored(s.m, k, v))
    case Enter(t, k, ch) =>
      if k in s.m.mp then s
      else
        var m := Registered(s.m, k, ch);
        System(m, s.threads[t := Waiting(k, m.keyToCh[k])])
    case TimeOut(t) => s.(threads := s.threads - {t})
    case Wake(t) => s.(threads := s.threads[t := Woken(s.threads[t].key)])
    case Read(t) => s.(threads := s.threads - {t})
  }

  /** What a `Get` returns without error at this step, if it does; the inner value is absent where
      a missing key would read as nil. */
  function Returned<V, Ch>(s: System<V, Ch>, e: Event<V, Ch>): Option<Option<V>>
    requires Enabled(s, e)
  {
    match e
    case Enter(_, k, _) => if k in s.m.mp then Some(Some(s.m.mp[k])) else None
    case Read(t) =>
      var k := s.threads[t].key;
      Some(if k in s.m.mp then Some(s.m.mp[k]) else None)
    case _ => None
  }

  /** The key a returning `Get` was called with. */
  function RequestedKey<V, Ch>(s: System<V, Ch>, e: Event<V, Ch>): string
    requires Enabled(s, e) && Returned(s, e).Some?
  {
    if e.Enter? then e.key else s.threads[e.thread].key
  }

  /** This step executes `close` on channel `ch`. */
  predicate Closes<V, Ch(==)>(s: System<V, Ch>, e: Event<V, Ch>, ch: Ch) {
    e.Put? && e.key in s.m.keyToCh && s.m.keyToCh[e.key] == ch && ch !in s.m.closed
  }

  ghost predicate ValidRun<V, Ch>(es: seq<Event<V, Ch>>)
    decreases |es|, 0
  {
    es == [] || (ValidRun(es[..|es| - 1]) && Enabled(Run(es[..|es| - 1]), es[|es| - 1]))
  }

  ghost function Run<V, Ch>(es: seq<Event<V, Ch>>): System<V, Ch>
    requires ValidRun(es)
    decreases |es|, 1
  {
    if es == [] then System(MapState(map[], map[], {}), map[])
    else Step(Run(es[..|es| - 1]), es[|es| - 1])
  }

  /** For every key with a channel: the channel is closed exactly when the key is present. */
  ghost predicate Consistent<V, Ch>(m: MapState<V, Ch>) {
    && (forall k :: k in m.keyToCh ==> (m.keyToCh[k] in m.closed <==> k in m.mp))
    && (forall k, l :: k in m.keyToCh && l in m.keyToCh && m.keyToCh[k] == m.keyToCh[l] ==> k == l)
    && (forall ch :: ch in m.closed ==> ch in m.keyToCh.Values)
  }

  ghost predicate Inv<V, Ch>(s: System<V, Ch>) {
    && Consistent(s.m)
    && (forall t :: t in s.threads && s.threads[t].Waiting? ==>
          s.threads[t].key in s.m.keyToCh && s.m.keyToCh[s.threads[t].key] == s.threads[t].ch)
    && (forall t :: t in s.threads && s.threads[t].Woken? ==> s.threads[t].key in s.m.mp)
  }

  lemma StoredConsistent<V, Ch>(m: MapState<V, Ch>, k: string, v: V)
    requires Consistent(m)
    ensures Consistent(Stored(m, k, v))
  {
  }

  lemma RegisteredConsistent<V, Ch>(m: MapState<V, Ch>, k: string, ch: Ch)
    requires Consistent(m) && k !in m.mp
    requires k !in m.keyToCh ==> ch !in m.closed && ch !in m.keyToCh.Values
    ensures Consistent(Registered(m, k, ch))
  {
    if k !in m.keyToCh {
      var m' := Registered(m, k, ch);
      forall c | c in m'.closed ensures c in m'.keyToCh.Values {
        var l :| l in m.keyToCh && m.keyToCh[l] == c;
        assert m'.keyToCh[l] == c;
      }
      assert forall l :: l in m.keyToCh ==> m.keyToCh[l] in m.keyToCh.Values;
    }
  }

  lemma StepKeepsInv<V, Ch>(s: System<V, Ch>, e: Event<V, Ch>)
    requires Inv(s) && Enabled(s, e)
    ensures Inv(Step(s, e))
  {
    match e
    case Put(k, v) => StoredConsistent(s.m, k, v);
    case Enter(t, k, ch) => if k !in s.m.mp { RegisteredConsistent(s.m, k, ch); }
    case _ =>
  }

  lemma {:induction false} RunInv<V, Ch>(es: seq<Event<V, Ch>>)
    requires ValidRun(es)
    ensures Inv(Run(es))
  {
    hide Step, Enabled;
    if es == [] {
    } else {
      RunInv(es[..|es| - 1]);
      StepKeepsInv(Run(es[..|es| - 1]), es[|es| - 1]);
    }
  }

  /** The value of the latest `Put` of a key. */
  function LastPut<V, Ch>(es: seq<Event<V, Ch>>, k: string): Option<V> {
    if es == [] then None
    else
      var e := es[|es| - 1];
      if e.Put? && e.key == k then Some(e.value) else LastPut(es[..|es| - 1], k)
  }

  lemma {:induction false} MapHoldsLastPut<V, Ch>(es: seq<Event<V, Ch>>, k: string)
    requires ValidRun(es)
    ensures LastPut(es, k) == if k in Run(es).m.mp then Some(Run(es).m.mp[k]) else None
  {
    if es != [] { MapHoldsLastPut(es[..|es| - 1], k); }
  }

  /** A `Get` without error returns the value the latest `Put` of its key had stored when it read;
      it never returns an absent value. */
  lemma GetReturnsLatest<V, Ch>(es: seq<Event<V, Ch>>, e: Event<V, Ch>)
    requires ValidRun(es) && Enabled(Run(es), e) && Returned(Run(es), e).Some?
    ensures LastPut(es, RequestedKey(Run(es), e)).Some?
    ensures Returned(Run(es), e).value == LastPut(es, RequestedKey(Run(es), e))
  {
    RunInv(es);
    MapHoldsLastPut(es, RequestedKey(Run(es), e));
  }

  /** No lost wakeup: a waiting thread can go on exactly when its key was put at some time, however
      the `Put` and the registration of the waiter interleaved. */
  lemma WakesIffPut<V, Ch>(es: seq<Event<V, Ch>>, t: nat)
    requires ValidRun(es) && t in Run(es).threads && Run(es).threads[t].Waiting?
    ensures Enabled(Run(es), Wake(t)) <==> LastPut(es, Run(es).threads[t].key).Some?
  {
    RunInv(es);
    MapHoldsLastPut(es, Run(es).threads[t].key);
  }

  /** How often a run closes channel `ch`. */
  ghost function CloseCount<V, Ch>(es: seq<Event<V, Ch>>, ch: Ch): nat
    requires ValidRun(es)
  {
    if es == [] then 0
    else CloseCount(es[..|es| - 1], ch) + (if Closes(Run(es[..|es| - 1]), es[|es| - 1], ch) then 1 else 0)
  }

  /** No channel is ever closed twice. */
  lemma {:induction false} ClosedAtMostOnce<V, Ch>(es: seq<Event<V, Ch>>, ch: Ch)
    requires ValidRun(es)
    ensures CloseCount(es, ch) == if ch in Run(es).m.closed then 1 else 0
  {
    if es != [] { ClosedAtMostOnce(es[..|es| - 1], ch); }
  }

  class Channel {
    var closed: bool

    constructor ()
      ensures !closed
    {
      closed := false;
    }

    /** Closing a closed channel would crash the program. */
    method Close()
      requires !closed
      modifies this
      ensures closed
    {
      closed := true;
    }
  }

  class MyConcurrentMap<V> {
    var mp: map<string, V>
    var keyToCh: map<string, Channel>

    ghost function Channels(): set<Channel>
      reads this
    {
      set k | k in keyToCh :: keyToCh[k]
    }

    ghost function Abs(): MapState<V, Channel>
      reads this, Channels()
    {
      MapState(mp, keyToCh, set k | k in keyToCh && keyToCh[k].closed :: keyToCh[k])
    }

    ghost predicate Valid()
      reads this, Channels()
    {
      Consistent(Abs())
    }

    constructor ()
      ensures Valid() && Abs() == MapState(map[], map[], {})
    {
      mp, keyToCh := map[], map[];
    }

    method Put(k: string, v: V)
      requires Valid()
      modifies this`mp, Channels()
      ensures Valid() && Abs() == Stored(old(Abs()), k, v)
    {
      StoredConsistent(Abs(), k, v);
      ghost var before := Abs();
      mp := mp[k := v];
      if k !in keyToCh { return; }
      var ch := keyToCh[k];
      assert ch in Channels();
      if !ch.closed {
        ch.Close();
      }
      assert Abs().closed == before.closed + {ch};
    }

    /** Up to the unlock before the select: the value, or the channel to wait on. */
    method GetEnter(k: string) returns (v: Option<V>, ch: Channel?)
      requires Valid()
      modifies this`keyToCh
      ensures Valid()
      ensures v == if k in old(mp) then Some(old(mp)[k]) else None
      ensures v.Some? ==> Abs() == old(Abs())
      ensures v.None? ==>
        && ch != null && k in keyToCh && keyToCh[k] == ch && !ch.closed
        && Abs() == Registered(old(Abs()), k, ch)
        && (k !in old(keyToCh) ==> fresh(ch))
    {
      v, ch := None, null;
      if k in mp {
        v := Some(mp[k]);
        return;
      }
      ghost var before := Abs();
      if k in keyToCh {
        ch := keyToCh[k];
        assert ch in Channels();
      } else {
        ch := new Channel();
        RegisteredConsistent(before, k, ch);
        keyToCh := keyToCh[k := ch];
      }
      assert Abs().closed == before.closed;
    }

    /** After the channel was closed: the value stored now. */
    method GetFinish(k: string, ghost ch: Channel) returns (v: V)
      requires Valid()
      requires k in keyToCh && keyToCh[k] == ch && ch.closed
      ensures k in mp && v == mp[k]
    {
      assert ch in Abs().closed;
      v := mp[k];
    }
  }
}
