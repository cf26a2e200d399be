/**
 The list of indirect hosts that are choosing, or have chosen, where to go.
 */
module Choices {
  import opened Wrappers

  const TO_INF := 0x7fffffff

  type Bytes = seq<int>

  datatype Key = Key(client: Bytes, port: Bytes, connType: int)

  datatype Choice = Choice(key: Key, choice: Option<Bytes>, timeout: int)

  // ---------------------------------------------------- what the list is for

  /** A host is in the list at most once. */
  ghost predicate Distinct(cs: seq<Choice>) {
    forall i, j :: 0 <= i < j < |cs| ==> cs[i].key != cs[j].key
  }

  /** The list is sorted by the time of expiry. */
  ghost predicate Sorted(cs: seq<Choice>) {
    forall i, j :: 0 <= i < j < |cs| ==> cs[i].timeout <= cs[j].timeout
  }

  /** The list as a map. */
  ghost function Abs(cs: seq<Choice>): map<Key, (Option<Bytes>, int)> {
    map k | k in (set c | c in cs :: c.key) :: (At(cs, k).choice, At(cs, k).timeout)
  }

  /** The first entry for a host, or a made-up one. */
  function At(cs: seq<Choice>, k: Key): Choice {
    if Find(cs, k) < |cs| then cs[Find(cs, k)] else Choice(k, None, 0)
  }

  function Find(cs: seq<Choice>, k: Key): (i: nat)
    ensures i <= |cs|
    ensures i < |cs| ==> cs[i].key == k
    ensures forall j :: 0 <= j < i ==> cs[j].key != k
  {
    if cs == [] then 0 else if cs[0].key == k then 0 else 1 + Find(cs[1..], k)
  }

  function Without(cs: seq<Choice>, i: nat): seq<Choice>
    requires i < |cs|
  {
    cs[..i] + cs[i + 1..]
  }

  /** The entries that have not expired. */
  function Unexpired(cs: seq<Choice>, now: int): (r: seq<Choice>)
    ensures forall c :: c in r <==> c in cs && c.timeout > now
  {
    if cs == [] then [] else (if cs[0].timeout > now then [cs[0]] else []) + Unexpired(cs[1..], now)
  }

  /** What is left when entries are dropped from the head only, up to one that has not expired. */
  function HeadDropped(cs: seq<Choice>, now: int): seq<Choice> {
    if cs == [] || cs[0].timeout > now then cs else HeadDropped(cs[1..], now)
  }

  /** With this time of expiry an entry can be put at the end. */
  ghost predicate Latest(cs: seq<Choice>, k: Key, timeout: int) {
    forall c :: c in cs && c.key != k ==> c.timeout <= timeout
  }

  function Checked(cs: seq<Choice>, k: Key): seq<Choice> {
    if Find(cs, k) < |cs| then Without(cs, Find(cs, k)) else cs
  }

  function Registered(cs: seq<Choice>, k: Key, choice: Option<Bytes>, timeout: int): seq<Choice> {
    var i := Find(cs, k);
    if i < |cs|
    then Without(cs, i) + [Choice(k, if choice.Some? then choice else cs[i].choice, timeout)]
    else cs + [Choice(k, choice, timeout)]
  }

  // ----------------------------------------------------------------- the code

  class IndirectHosts {
    var choices: seq<Choice>
    var choiceTimeout: int     // may change with the configuration

    constructor (choiceTimeout: int)
      ensures choices == [] && this.choiceTimeout == choiceTimeout
    {
      choices, this.choiceTimeout := [], choiceTimeout;
    }

    /** Only the head of the list is looked at. */
    method DisposeIndirectHosts(now: int) returns (next: int)
      modifies this`choices
      ensures choices == HeadDropped(old(choices), now)
      ensures next == if choices == [] then TO_INF else choices[0].timeout
      ensures Sorted(old(choices)) ==> choices == Unexpired(old(choices), now) && forall c :: c in choices ==> next <= c.timeout
    {
      hide Unexpired, Sorted;
      ghost var cs := choices;
      if Sorted(cs) {
        SortedHead(cs, now);
      }
      while choices != []
        invariant HeadDropped(choices, now) == HeadDropped(cs, now)
        decreases |choices|
      {
        if choices[0].timeout > now {
          HeadIsFirst(cs, now);
          return choices[0].timeout;
        }
        choices := choices[1..];
      }
      next := TO_INF;
    }

    method FindHost(k: Key) returns (i: nat)
      ensures i == Find(choices, k)
    {
      i := 0;
      while i < |choices| && choices[i].key != k
        invariant i <= |choices| && forall j :: 0 <= j < i ==> choices[j].key != k
      {
        i := i + 1;
      }
      FindIs(choices, k, i);
    }

    method IndirectChoice(k: Key) returns (choice: Option<Bytes>)
      ensures choice == if k in Abs(choices) then Abs(choices)[k].0 else None
    {
      AbsHas(choices, k);
      var i := FindHost(k);
      choice := if i < |choices| then choices[i].choice else None;
    }

    method CheckIndirectChoice(k: Key) returns (uc: bool)
      requires Distinct(choices)
      modifies this`choices
      ensures Distinct(choices) && Abs(choices) == Abs(old(choices)) - {k}
      ensures Sorted(old(choices)) ==> Sorted(choices)
      ensures choices == Checked(old(choices), k)
      ensures uc == (k in Abs(old(choices)) && Abs(old(choices))[k].0.None?)
    {
      hide Abs, Sorted, Distinct;
      AbsHas(choices, k);
      var i := FindHost(k);
      if i == |choices| {
        AbsMinusNothing(choices, k);
        return false;
      }
      uc := choices[i].choice.None?;
      WithoutMap(choices, i);
      if Sorted(choices) {
        WithoutSorted(choices, i);
      }
      choices := Without(choices, i);
    }

    /** The entry moves to the end, with a new time of expiry. */
    method RegisterIndirectChoice(k: Key, choice: Option<Bytes>, now: int)
      requires Distinct(choices)
      modifies this`choices
      ensures Distinct(choices) && choices == Registered(old(choices), k, choice, now + choiceTimeout)
      ensures Abs(choices) == Abs(old(choices))[k :=
        (if choice.None? && k in Abs(old(choices)) then Abs(old(choices))[k].0 else choice, now + choiceTimeout)]
      ensures Sorted(old(choices)) ==> (Sorted(choices) <==> Latest(old(choices), k, now + choiceTimeout))
    {
      hide Abs, Find, Sorted, Distinct, Latest;
      RegisteredMap(choices, k, choice, now + choiceTimeout);
      if Sorted(choices) {
        RegisteredSorted(choices, k, choice, now + choiceTimeout);
      }
      var i := FindHost(k);
      var c := Choice(k, None, 0);
      if i < |choices| {
        c := choices[i];
        choices := choices[..i] + choices[i + 1..];
      }
      if choice.Some? {
        c := c.(choice := choice);
      }
      choices := choices + [c.(timeout := now + choiceTimeout)];
    }
  }

  // ------------------------------------------------------------------- lemmas

  lemma {:induction false} FindIs(cs: seq<Choice>, k: Key, i: nat)
    requires i <= |cs| && (i < |cs| ==> cs[i].key == k) && forall j :: 0 <= j < i ==> cs[j].key != k
    ensures Find(cs, k) == i
  {
  }

  lemma {:induction false} SortedTail(cs: seq<Choice>)
    requires Sorted(cs) && cs != []
    ensures Sorted(cs[1..]) && forall c :: c in cs ==> cs[0].timeout <= c.timeout
  {
  }

  /** In a sorted list whose head has not expired, nothing has. */
  lemma {:induction false} AllUnexpired(cs: seq<Choice>, now: int)
    requires Sorted(cs) && (cs != [] ==> cs[0].timeout > now)
    ensures Unexpired(cs, now) == cs
    decreases |cs|
  {
    if cs != [] {
      SortedTail(cs);
      AllUnexpired(cs[1..], now);
    }
  }

  /** In a sorted list the head says it all. */
  lemma {:induction false} SortedHead(cs: seq<Choice>, now: int)
    requires Sorted(cs)
    ensures HeadDropped(cs, now) == Unexpired(cs, now)
    ensures var r := HeadDropped(cs, now); forall c :: r != [] && c in r ==> r[0].timeout <= c.timeout
    decreases |cs|
  {
    if cs != [] {
      SortedTail(cs);
      if cs[0].timeout > now {
        AllUnexpired(cs, now);
      } else {
        SortedHead(cs[1..], now);
      }
    }
  }

  lemma {:induction false} HeadIsFirst(cs: seq<Choice>, now: int)
    ensures HeadDropped(cs, now) != [] ==> HeadDropped(cs, now)[0].timeout > now
    decreases |cs|
  {
    if cs != [] {
      HeadIsFirst(cs[1..], now);
    }
  }

  /** What follows an entry that has not expired is not dropped. */
  lemma {:induction false} HeadKeeps(cs: seq<Choice>, now: int, i: nat)
    requires i < |cs| && cs[i].timeout > now
    ensures forall j :: i <= j < |cs| ==> cs[j] in HeadDropped(cs, now)
    decreases i
  {
    if cs[0].timeout <= now {
      HeadKeeps(cs[1..], now, i - 1);
      forall j | i <= j < |cs|
        ensures cs[j] in HeadDropped(cs, now)
      {
        assert cs[j] == cs[1..][j - 1];
      }
    }
  }

  /** Looking at the head only is right at all times if and only if the list is sorted. */
  lemma {:induction false} HeadRight(cs: seq<Choice>)
    ensures Right(cs) <==> Sorted(cs)
  {
    hide HeadDropped, Unexpired;
    if Sorted(cs) {
      forall now
        ensures HeadDropped(cs, now) == Unexpired(cs, now)
      {
        SortedHead(cs, now);
      }
    } else {
      var i, j :| 0 <= i < j < |cs| && cs[i].timeout > cs[j].timeout;
      var now := cs[j].timeout;
      HeadKeeps(cs, now, i);
      assert cs[j] in HeadDropped(cs, now) && cs[j] !in Unexpired(cs, now);
    }
  }

  lemma {:induction false} AbsHas(cs: seq<Choice>, k: Key)
    ensures k in Abs(cs) <==> Find(cs, k) < |cs|
    ensures k in Abs(cs) ==> Abs(cs)[k] == (cs[Find(cs, k)].choice, cs[Find(cs, k)].timeout)
  {
    hide Find;
    var i := Find(cs, k);
    if i < |cs| {
      assert cs[i] in cs;
    }
    assert k in (set c | c in cs :: c.key) <==> exists c :: c in cs && c.key == k;
  }

  lemma {:induction false} AbsMinusNothing(cs: seq<Choice>, k: Key)
    requires k !in Abs(cs)
    ensures Abs(cs) - {k} == Abs(cs)
  {
    hide Abs;
  }

  lemma {:induction false} SameAbs(a: map<Key, (Option<Bytes>, int)>, b: map<Key, (Option<Bytes>, int)>)
    requires forall k :: k in a <==> k in b
    requires forall k :: k in a ==> a[k] == b[k]
    ensures a == b
  {
  }

  lemma {:induction false} WithoutAt(cs: seq<Choice>, i: nat, k: Key)
    requires Distinct(cs) && i < |cs|
    ensures var r := Without(cs, i);
      && (k == cs[i].key ==> Find(r, k) == |r|)
      && (k != cs[i].key ==> (Find(r, k) < |r| <==> Find(cs, k) < |cs|)
                             && (Find(r, k) < |r| ==> r[Find(r, k)] == cs[Find(cs, k)]))
  {
    hide Find;
    var r := Without(cs, i);
    assert forall j :: 0 <= j < |r| ==> r[j] == cs[if j < i then j else j + 1];
    var f := Find(cs, k);
    if k == cs[i].key {
      FindIs(r, k, |r|);
    } else if f < i {
      FindIs(r, k, f);
    } else if f < |cs| {
      FindIs(r, k, f - 1);
    } else {
      FindIs(r, k, |r|);
    }
  }

  /** Taking an entry out takes its host out of the map. */
  lemma {:induction false} WithoutMap(cs: seq<Choice>, i: nat)
    requires Distinct(cs) && i < |cs|
    ensures Distinct(Without(cs, i)) && Abs(Without(cs, i)) == Abs(cs) - {cs[i].key}
  {
    hide Abs, Find;
    var r := Without(cs, i);
    assert forall j :: 0 <= j < |r| ==> r[j] == cs[if j < i then j else j + 1];
    var m := Abs(cs) - {cs[i].key};
    forall k
      ensures k in Abs(r) <==> k in m
      ensures k in m ==> Abs(r)[k] == m[k]
    {
      AbsHas(cs, k);
      AbsHas(r, k);
      WithoutAt(cs, i, k);
    }
    SameAbs(Abs(r), m);
  }

  lemma {:induction false} WithoutSorted(cs: seq<Choice>, i: nat)
    requires Sorted(cs) && i < |cs|
    ensures Sorted(Without(cs, i))
  {
    var r := Without(cs, i);
    assert forall j :: 0 <= j < |r| ==> r[j] == cs[if j < i then j else j + 1];
  }

  lemma {:induction false} AppendedMap(cs: seq<Choice>, c: Choice)
    requires Distinct(cs) && Find(cs, c.key) == |cs|
    ensures Distinct(cs + [c]) && Abs(cs + [c]) == Abs(cs)[c.key := (c.choice, c.timeout)]
  {
    hide Abs, Find;
    var r := cs + [c];
    var m := Abs(cs)[c.key := (c.choice, c.timeout)];
    forall k
      ensures k in Abs(r) <==> k in m
      ensures k in m ==> Abs(r)[k] == m[k]
    {
      AbsHas(cs, k);
      AbsHas(r, k);
      if Find(cs, k) < |cs| {
        FindIs(r, k, Find(cs, k));
      } else {
        FindIs(r, k, if k == c.key then |cs| else |r|);
      }
    }
    SameAbs(Abs(r), m);
  }

  /** Registering is an update of the map, whatever the times are. */
  lemma {:induction false} RegisteredMap(cs: seq<Choice>, k: Key, choice: Option<Bytes>, timeout: int)
    requires Distinct(cs)
    ensures Distinct(Registered(cs, k, choice, timeout))
    ensures Abs(Registered(cs, k, choice, timeout)) == Abs(cs)[k :=
      (if choice.None? && k in Abs(cs) then Abs(cs)[k].0 else choice, timeout)]
  {
    hide Abs, Find, Distinct;
    AbsHas(cs, k);
    var i := Find(cs, k);
    if i < |cs| {
      var c := Choice(k, if choice.Some? then choice else cs[i].choice, timeout);
      WithoutMap(cs, i);
      WithoutAt(cs, i, k);
      AppendedMap(Without(cs, i), c);
      SameAbs((Abs(cs) - {k})[k := (c.choice, c.timeout)], Abs(cs)[k := (c.choice, c.timeout)]);
    } else {
      AppendedMap(cs, Choice(k, choice, timeout));
    }
  }

  lemma {:induction false} AppendedSorted(cs: seq<Choice>, c: Choice)
    requires Sorted(cs)
    ensures Sorted(cs + [c]) <==> forall d :: d in cs ==> d.timeout <= c.timeout
  {
    var r := cs + [c];
    if Sorted(r) {
      forall d | d in cs
        ensures d.timeout <= c.timeout
      {
        var i :| 0 <= i < |cs| && cs[i] == d;
        assert r[i] == d && r[|cs|] == c;
      }
    }
  }

  /** A sorted list stays so exactly if the new entry expires last. */
  lemma {:induction false} RegisteredSorted(cs: seq<Choice>, k: Key, choice: Option<Bytes>, timeout: int)
    requires Distinct(cs) && Sorted(cs)
    ensures Sorted(Registered(cs, k, choice, timeout)) <==> Latest(cs, k, timeout)
  {
    hide Sorted, Find;
    var i := Find(cs, k);
    if i < |cs| {
      var r := Without(cs, i);
      WithoutSorted(cs, i);
      AppendedSorted(r, Choice(k, if choice.Some? then choice else cs[i].choice, timeout));
      WithoutHas(cs, i);
    } else {
      AppendedSorted(cs, Choice(k, choice, timeout));
      assert forall c :: c in cs ==> c.key != k;
    }
  }

  lemma {:induction false} WithoutHas(cs: seq<Choice>, i: nat)
    requires Distinct(cs) && i < |cs|
    ensures forall c :: c in Without(cs, i) <==> c in cs && c.key != cs[i].key
  {
    var r := Without(cs, i);
    assert forall j :: 0 <= j < |r| ==> r[j] == cs[if j < i then j else j + 1];
    forall c | c in cs && c.key != cs[i].key
      ensures c in r
    {
      var j :| 0 <= j < |cs| && cs[j] == c;
      assert r[if j < i then j else j - 1] == c;
    }
  }

  // --------------------------------------------------------------------- runs

  datatype Event =
    | Register(k: Key, choice: Option<Bytes>)
    | Check(k: Key)
    | Dispose
    | Lookup(k: Key)

  /** What happens, when, and the waiting time that is configured then. */
  datatype Timed = Timed(e: Event, now: int, wait: int)

  function Step(cs: seq<Choice>, t: Timed): seq<Choice> {
    match t.e
    case Register(k, choice) => Registered(cs, k, choice, t.now + t.wait)
    case Check(k) => Checked(cs, k)
    case Dispose => HeadDropped(cs, t.now)
    case Lookup(_) => cs
  }

  function Run(cs: seq<Choice>, es: seq<Timed>): seq<Choice>
    decreases |es|
  {
    if es == [] then cs else Run(Step(cs, es[0]), es[1..])
  }

  lemma {:induction false} HeadSuffix(cs: seq<Choice>, now: int) returns (p: nat)
    ensures p <= |cs| && HeadDropped(cs, now) == cs[p..]
    decreases |cs|
  {
    p := 0;
    if cs != [] && cs[0].timeout <= now {
      p := HeadSuffix(cs[1..], now);
      p := p + 1;
    }
  }

  /** Hosts stay unique, and only registering can put the list out of order. */
  lemma {:induction false} StepKeeps(cs: seq<Choice>, t: Timed)
    requires Distinct(cs)
    ensures Distinct(Step(cs, t))
    ensures Sorted(cs) ==>
      (Sorted(Step(cs, t)) <==> (t.e.Register? ==> Latest(cs, t.e.k, t.now + t.wait)))
  {
    hide Sorted, Find, Latest, HeadDropped;
    match t.e {
      case Register(k, choice) =>
        RegisteredMap(cs, k, choice, t.now + t.wait);
        if Sorted(cs) {
          RegisteredSorted(cs, k, choice, t.now + t.wait);
        }
      case Check(k) =>
        if Find(cs, k) < |cs| {
          WithoutMap(cs, Find(cs, k));
          if Sorted(cs) {
            WithoutSorted(cs, Find(cs, k));
          }
        }
      case Dispose =>
        var p := HeadSuffix(cs, t.now);
        SuffixSorted(cs, p);
      case Lookup(_) =>
    }
  }

  lemma {:induction false} SuffixSorted(cs: seq<Choice>, p: nat)
    requires p <= |cs|
    ensures Sorted(cs) ==> Sorted(cs[p..])
  {
  }

  /** Whenever a host is registered, all others expire before it. */
  ghost predicate DeadlinesOk(cs: seq<Choice>, es: seq<Timed>)
    decreases |es|
  {
    es != [] ==>
      && (es[0].e.Register? ==> Latest(cs, es[0].e.k, es[0].now + es[0].wait))
      && DeadlinesOk(Step(cs, es[0]), es[1..])
  }

  /** Looking at the head only is right at all times. */
  ghost predicate Right(cs: seq<Choice>) {
    forall now :: HeadDropped(cs, now) == Unexpired(cs, now)
  }

  /** In every state of the run, disposing would drop exactly what has expired, at any time. */
  ghost predicate RightThroughout(cs: seq<Choice>, es: seq<Timed>)
    decreases |es|
  {
    Right(cs) && (es != [] ==> RightThroughout(Step(cs, es[0]), es[1..]))
  }

  /** Over every run: looking at the head only is right throughout exactly if every host is registered to expire last. */
  lemma {:induction false} RunRight(cs: seq<Choice>, es: seq<Timed>)
    requires Distinct(cs) && Sorted(cs)
    ensures RightThroughout(cs, es) <==> DeadlinesOk(cs, es)
    decreases |es|
  {
    hide Step, Sorted, Distinct, Latest, Right;
    HeadRight(cs);
    if es != [] {
      StepKeeps(cs, es[0]);
      HeadRight(Step(cs, es[0]));
      if Sorted(Step(cs, es[0])) {
        RunRight(Step(cs, es[0]), es[1..]);
      } else {
        assert !RightThroughout(Step(cs, es[0]), es[1..]) by { WrongNow(Step(cs, es[0]), es[1..]); }
      }
    }
  }

  lemma {:induction false} WrongNow(cs: seq<Choice>, es: seq<Timed>)
    requires !Right(cs)
    ensures !RightThroughout(cs, es)
  {
  }

  /** Times of expiry are given out in order: neither the clock nor the waiting time goes back. */
  predicate Growing(es: seq<Timed>, deadline: int)
    decreases |es|
  {
    es != [] ==>
      && (es[0].e.Register? ==> deadline <= es[0].now + es[0].wait)
      && Growing(es[1..], if es[0].e.Register? then es[0].now + es[0].wait else deadline)
  }

  lemma {:induction false} StepBound(cs: seq<Choice>, t: Timed, deadline: int)
    requires forall c :: c in cs ==> c.timeout <= deadline
    requires t.e.Register? ==> deadline <= t.now + t.wait
    ensures forall c :: c in Step(cs, t) ==> c.timeout <= if t.e.Register? then t.now + t.wait else deadline
  {
    hide Find, HeadDropped;
    if t.e.Dispose? {
      var p := HeadSuffix(cs, t.now);
    }
  }

  /** In particular it is if the times of expiry grow. */
  lemma {:induction false} GrowingRight(cs: seq<Choice>, es: seq<Timed>, deadline: int)
    requires Distinct(cs) && Sorted(cs) && Growing(es, deadline)
    requires forall c :: c in cs ==> c.timeout <= deadline
    ensures DeadlinesOk(cs, es) && RightThroughout(cs, es)
    decreases |es|
  {
    hide Step, Sorted, Distinct, HeadDropped, Unexpired, RightThroughout;
    if es != [] {
      StepKeeps(cs, es[0]);
      StepBound(cs, es[0], deadline);
      GrowingRight(Step(cs, es[0]), es[1..], if es[0].e.Register? then es[0].now + es[0].wait else deadline);
    }
    RunRight(cs, es);
  }

  /**
   A clock that goes back, and a waiting time that is made shorter: each leaves an expired
   entry behind one that has not expired, and disposing does not find it.
   */
  lemma {:induction false} Unnoticed(a: Key, b: Key)
    requires a != b
    ensures var cs := Run([], [Timed(Register(a, None), 5, 10), Timed(Register(b, None), 0, 10)]);
      && cs == Run([], [Timed(Register(a, None), 0, 15), Timed(Register(b, None), 0, 10)])
      && HeadDropped(cs, 12) == [Choice(a, None, 15), Choice(b, None, 10)]
      && Unexpired(cs, 12) == [Choice(a, None, 15)]
  {
    TwoRegistered(a, b, 5, 10, 0, 10);
    TwoRegistered(a, b, 0, 15, 0, 10);
    var cs := [Choice(a, None, 15), Choice(b, None, 10)];
    assert cs[1..] == [Choice(b, None, 10)] && cs[1..][1..] == [];
    assert Unexpired(cs[1..], 12) == [] + Unexpired([], 12);
  }

  lemma {:induction false} TwoRegistered(a: Key, b: Key, now1: int, wait1: int, now2: int, wait2: int)
    requires a != b
    ensures Run([], [Timed(Register(a, None), now1, wait1), Timed(Register(b, None), now2, wait2)]) ==
      [Choice(a, None, now1 + wait1), Choice(b, None, now2 + wait2)]
  {
    var es := [Timed(Register(a, None), now1, wait1), Timed(Register(b, None), now2, wait2)];
    var cs1 := [Choice(a, None, now1 + wait1)];
    assert Step([], es[0]) == cs1;
    FindIs(cs1, b, 1);
    var cs2 := Step(cs1, es[1]);
    assert es[1..] == [es[1]] && es[1..][1..] == [];
    assert Run(cs1, es[1..]) == Run(cs2, []);
  }
}
