/**
 The users and groups that the control module shows: recounted from scratch, or changed
 step by step when the range of user IDs changes.
 */
module UserGroups {

  datatype User = User(name: string, uid: int, groups: seq<string>)

  /** Users with a unique name, as the keys of a map have. */
  ghost predicate Distinct(us: seq<User>) {
    forall i, j :: 0 <= i < j < |us| ==> us[i].name != us[j].name
  }

  /** How a group is named among the users. */
  function Tag(g: string): string {
    "@" + g
  }

  /** No user is called like a group. */
  ghost predicate NoClash(us: seq<User>) {
    forall i, g :: 0 <= i < |us| ==> us[i].name != Tag(g)
  }

  predicate InRange(u: User, min: int, max: int) {
    min <= u.uid <= max
  }

  /** The superuser is always shown. */
  predicate Shown(u: User, min: int, max: int) {
    u.uid == 0 || InRange(u, min, max)
  }

  function Groups(u: User): multiset<string> {
    multiset(u.groups)
  }

  /** The group memberships of the users shown, each as often as it occurs. */
  function Bag(us: seq<User>, min: int, max: int): multiset<string> {
    if us == [] then multiset{}
    else (if Shown(us[0], min, max) then Groups(us[0]) else multiset{}) + Bag(us[1..], min, max)
  }

  /** The map has a positive count for just the groups that occur. */
  ghost predicate Counts(m: map<string, int>, b: multiset<string>) {
    && (forall g :: g in m ==> g in b && m[g] == b[g])
    && (forall g :: g in b ==> g in m)
  }

  function Tags(gs: set<string>): set<string> {
    set g | g in gs :: Tag(g)
  }

  ghost function GroupsShown(us: seq<User>, min: int, max: int): set<string> {
    set g | g in Bag(us, min, max)
  }

  ghost function NamesShown(us: seq<User>, min: int, max: int): set<string> {
    set i | 0 <= i < |us| && Shown(us[i], min, max) :: us[i].name
  }

  /** Every name that a fresh recount shows. */
  ghost function View(us: seq<User>, min: int, max: int): set<string> {
    NamesShown(us, min, max) + Tags(GroupsShown(us, min, max))
  }

  // ------------------------------------------------------------------- lemmas

  lemma {:induction false} BagStep(us: seq<User>, i: nat, min: int, max: int)
    requires i < |us|
    ensures Bag(us[i..], min, max) ==
      (if Shown(us[i], min, max) then Groups(us[i]) else multiset{}) + Bag(us[i + 1..], min, max)
  {
    assert us[i..][1..] == us[i + 1..];
  }

  lemma {:induction false} BagSnoc(us: seq<User>, u: User, min: int, max: int)
    ensures Bag(us + [u], min, max) == Bag(us, min, max) + if Shown(u, min, max) then Groups(u) else multiset{}
    decreases |us|
  {
    hide Shown, Groups;
    if us == [] {
      assert us + [u] == [u] && [u][1..] == [];
    } else {
      assert (us + [u])[1..] == us[1..] + [u];
      BagSnoc(us[1..], u, min, max);
    }
  }

  lemma {:induction false} BagUpTo(us: seq<User>, i: nat, min: int, max: int)
    requires i < |us|
    ensures Bag(us[..i + 1], min, max) ==
      if Shown(us[i], min, max) then Bag(us[..i], min, max) + Groups(us[i]) else Bag(us[..i], min, max)
  {
    hide Shown, Groups, Bag;
    assert Bag(us[..i], min, max) + multiset{} == Bag(us[..i], min, max);
    assert us[..i + 1] == us[..i] + [us[i]];
    BagSnoc(us[..i], us[i], min, max);
  }

  /** One membership more. */
  lemma {:induction false} CountUp(m: map<string, int>, b: multiset<string>, g: string)
    requires Counts(m, b)
    ensures Counts(m[g := if g in m then m[g] + 1 else 1], b + multiset{g})
  {
  }

  /** One membership less. */
  lemma {:induction false} CountDown(m: map<string, int>, b: multiset<string>, g: string)
    requires Counts(m, b + multiset{g})
    ensures g in m && m[g] >= 1
    ensures Counts(if m[g] == 1 then m - {g} else m[g := m[g] - 1], b)
  {
    assert g in b + multiset{g};
  }

  lemma {:induction false} UpTo(gs: seq<string>, j: nat)
    requires j < |gs|
    ensures multiset(gs[..j + 1]) == multiset(gs[..j]) + multiset{gs[j]}
    ensures multiset(gs[j..]) == multiset{gs[j]} + multiset(gs[j + 1..])
  {
    assert gs[..j + 1] == gs[..j] + [gs[j]];
    assert gs[j..] == [gs[j]] + gs[j + 1..];
  }

  lemma {:induction false} TagsAdd(gs: set<string>, g: string)
    ensures Tags(gs + {g}) == Tags(gs) + {Tag(g)} && Tags({}) == {}
  {
  }

  lemma {:induction false} CountsKeys(m: map<string, int>, b: multiset<string>)
    requires Counts(m, b)
    ensures m.Keys == set g | g in b
  {
  }

  // ------------------------------------------------------ the incremental pass

  predicate Leaves(u: User, min: int, max: int, min2: int, max2: int) {
    u.uid != 0 && InRange(u, min, max) && !InRange(u, min2, max2)
  }

  predicate Enters(u: User, min: int, max: int, min2: int, max2: int) {
    u.uid != 0 && InRange(u, min2, max2) && !InRange(u, min, max)
  }

  ghost function LeavingNames(us: seq<User>, n: nat, min: int, max: int, min2: int, max2: int): set<string>
    requires n <= |us|
  {
    set i | 0 <= i < n && Leaves(us[i], min, max, min2, max2) :: us[i].name
  }

  ghost function EnteringNames(us: seq<User>, n: nat, min: int, max: int, min2: int, max2: int): set<string>
    requires n <= |us|
  {
    set i | 0 <= i < n && Enters(us[i], min, max, min2, max2) :: us[i].name
  }

  /** The memberships that count when the pass has come to user `i`: the new ones before, the old ones behind. */
  ghost function Mixed(us: seq<User>, i: nat, mi: int, ma: int, min: int, max: int): multiset<string>
    requires i <= |us|
  {
    Bag(us[..i], min, max) + Bag(us[i..], mi, ma)
  }

  /** ... those of all users but `i`. */
  ghost function Others(us: seq<User>, i: nat, mi: int, ma: int, min: int, max: int): multiset<string>
    requires i < |us|
  {
    Bag(us[..i], min, max) + Bag(us[i + 1..], mi, ma)
  }

  /** The groups of the old view that are without a member on the way to user `n`. */
  ghost function DroppedBy(us: seq<User>, n: nat, mi: int, ma: int, min: int, max: int): set<string>
    requires n <= |us|
  {
    set g | g in Bag(us, mi, ma) && exists k :: 0 <= k <= n && g !in Mixed(us, k, mi, ma, min, max)
  }

  /** The groups that the pass takes off the lists ... */
  ghost function Dropped(us: seq<User>, mi: int, ma: int, min: int, max: int): set<string> {
    DroppedBy(us, |us|, mi, ma, min, max)
  }

  /** ... and those that it puts onto them: the new view, but for what was there all the time. */
  ghost function Added(us: seq<User>, mi: int, ma: int, min: int, max: int): set<string> {
    set g | g in Bag(us, min, max) && (g in Bag(us, mi, ma) ==> g in Dropped(us, mi, ma, min, max))
  }

  /**
   The groups that are there come from the old view without those that were dropped, and
   from those that were added; a group that was added has no membership to lose any more.
   */
  ghost predicate Tracked(m: map<string, int>, before: set<string>, dropped: set<string>, added: set<string>,
                          toLose: multiset<string>) {
    && m.Keys == (before - dropped) + added
    && dropped <= before && added !! (before - dropped)
    && (forall g :: g in added ==> g !in toLose)
  }

  lemma {:induction false} TrackUp(m: map<string, int>, before: set<string>, dropped: set<string>, added: set<string>,
                toLose: multiset<string>, g: string)
    requires Tracked(m, before, dropped, added, toLose)
    requires g !in m ==> g !in toLose
    ensures Tracked(m[g := if g in m then m[g] + 1 else 1], before, dropped, if g in m then added else added + {g}, toLose)
  {
  }

  lemma {:induction false} TrackDown(m: map<string, int>, before: set<string>, dropped: set<string>, added: set<string>,
                  toLose: multiset<string>, g: string)
    requires Tracked(m, before, dropped, added, toLose + multiset{g}) && g in m
    ensures Tracked(if m[g] == 1 then m - {g} else m[g := m[g] - 1], before,
                    if m[g] == 1 then dropped + {g} else dropped, added, toLose)
  {
    assert g in toLose + multiset{g};
  }

  /** What has been dropped when another user is through. */
  lemma {:induction false} DroppedStep(us: seq<User>, n: nat, mi: int, ma: int, min: int, max: int,
                                       m: map<string, int>, dropped: set<string>, dropped2: set<string>,
                                       added: set<string>, toLose: multiset<string>)
    requires n < |us| && dropped == DroppedBy(us, n, mi, ma, min, max) && dropped <= dropped2
    requires Counts(m, Mixed(us, n + 1, mi, ma, min, max))
    requires Tracked(m, GroupsShown(us, mi, ma), dropped2, added, toLose)
    requires forall g :: g in dropped2 && g !in dropped ==> g !in m
    ensures dropped2 == DroppedBy(us, n + 1, mi, ma, min, max)
  {
    hide Bag, Mixed;
    CountsKeys(m, Mixed(us, n + 1, mi, ma, min, max));
    hide Counts;
    var next := DroppedBy(us, n + 1, mi, ma, min, max);
    assert dropped <= next;
    forall g | g in dropped2
      ensures g in next
    {
      if g !in dropped {
        assert g !in Mixed(us, n + 1, mi, ma, min, max);
      }
    }
    forall g | g in next
      ensures g in dropped2
    {
      if g !in dropped {
        assert g !in Mixed(us, n + 1, mi, ma, min, max);
        assert g !in m.Keys;
      }
    }
  }

  /** Nothing is dropped to begin with. */
  lemma {:induction false} DroppedStart(us: seq<User>, mi: int, ma: int, min: int, max: int)
    ensures DroppedBy(us, 0, mi, ma, min, max) == {}
  {
    assert us[..0] == [] && us[0..] == us;
  }

  lemma {:induction false} AddedIs(us: seq<User>, mi: int, ma: int, min: int, max: int, m: map<string, int>,
                                   added: set<string>, toLose: multiset<string>)
    requires Counts(m, Bag(us, min, max))
    requires Tracked(m, GroupsShown(us, mi, ma), Dropped(us, mi, ma, min, max), added, toLose)
    ensures added == Added(us, mi, ma, min, max)
  {
    hide Bag, Dropped;
    CountsKeys(m, Bag(us, min, max));
    hide Counts;
    assert forall g :: g in Bag(us, min, max) <==> g in m.Keys;
  }

  /** What the lists show of the groups is what the pass takes off and puts on. */
  lemma {:induction false} GroupsMove(us: seq<User>, mi: int, ma: int, min: int, max: int)
    ensures GroupsShown(us, min, max) ==
      (GroupsShown(us, mi, ma) - Dropped(us, mi, ma, min, max)) + Added(us, mi, ma, min, max)
  {
    EndsDropped(us, mi, ma, min, max);
    hide Bag, Dropped;
  }

  lemma {:induction false} EndsDropped(us: seq<User>, mi: int, ma: int, min: int, max: int)
    ensures forall g :: g in Bag(us, mi, ma) && g !in Bag(us, min, max) ==> g in Dropped(us, mi, ma, min, max)
  {
    hide Bag, Mixed;
    PassEnds(us, mi, ma, min, max);
    assert forall g :: g !in Bag(us, min, max) ==> g !in Mixed(us, |us|, mi, ma, min, max);
  }

  /** What the users from `i` on can lose is counted. */
  ghost function ToLose(us: seq<User>, min: int, max: int, min2: int, max2: int): multiset<string> {
    if us == [] then multiset{}
    else (if Leaves(us[0], min, max, min2, max2) then Groups(us[0]) else multiset{}) + ToLose(us[1..], min, max, min2, max2)
  }

  lemma {:induction false} ToLoseStep(us: seq<User>, i: nat, min: int, max: int, min2: int, max2: int)
    requires i < |us|
    ensures var rest := ToLose(us[i + 1..], min, max, min2, max2);
      ToLose(us[i..], min, max, min2, max2) ==
        if Leaves(us[i], min, max, min2, max2) then rest + Groups(us[i]) else rest
  {
    hide Leaves, Groups;
    assert us[i..][1..] == us[i + 1..];
  }

  lemma {:induction false} ToLoseInBag(us: seq<User>, min: int, max: int, min2: int, max2: int)
    ensures ToLose(us, min, max, min2, max2) <= Bag(us, min, max)
    decreases |us|
  {
    hide Groups, InRange;
    if us != [] {
      ToLoseInBag(us[1..], min, max, min2, max2);
    }
  }

  // ------------------------------------------------------------------ the view

  lemma {:induction false} NamesMove(us: seq<User>, min: int, max: int, min2: int, max2: int)
    requires Distinct(us)
    ensures NamesShown(us, min2, max2) ==
      (NamesShown(us, min, max) - LeavingNames(us, |us|, min, max, min2, max2))
      + EnteringNames(us, |us|, min, max, min2, max2)
  {
    hide InRange;
    var was, now := NamesShown(us, min, max), NamesShown(us, min2, max2);
    var gone, come := LeavingNames(us, |us|, min, max, min2, max2), EnteringNames(us, |us|, min, max, min2, max2);
    forall i | 0 <= i < |us|
      ensures us[i].name in was <==> Shown(us[i], min, max)
      ensures us[i].name in now <==> Shown(us[i], min2, max2)
      ensures us[i].name in gone <==> Leaves(us[i], min, max, min2, max2)
      ensures us[i].name in come <==> Enters(us[i], min, max, min2, max2)
    {
      assert forall j :: 0 <= j < |us| && us[j].name == us[i].name ==> j == i;
    }
    assert forall s :: s in now ==> exists i :: 0 <= i < |us| && us[i].name == s;
    assert forall s :: s in was ==> exists i :: 0 <= i < |us| && us[i].name == s;
    assert forall s :: s in come ==> exists i :: 0 <= i < |us| && us[i].name == s;
  }

  lemma {:induction false} TagsMove(a: set<string>, dropped: set<string>, added: set<string>)
    ensures Tags((a - dropped) + added) == (Tags(a) - Tags(dropped)) + Tags(added)
  {
    assert forall g, h :: Tag(g) == Tag(h) ==> g == h by {
      assert forall g :: Tag(g)[1..] == g;
    }
  }

  /**
   No user that stays is called like a group that goes, and none that leaves like a group
   that was there all the time.
   */
  ghost predicate NoneLost(us: seq<User>, mi: int, ma: int, min: int, max: int) {
    forall i, g :: 0 <= i < |us| && us[i].name == Tag(g) && g in Bag(us, mi, ma) ==>
      && (Shown(us[i], mi, ma) && !Leaves(us[i], mi, ma, min, max) ==> g in Bag(us, min, max))
      && (Leaves(us[i], mi, ma, min, max) ==>
            exists n :: 0 <= n <= |us| && g !in Mixed(us, n, mi, ma, min, max))
  }

  lemma {:induction false} NoneClashes(us: seq<User>, mi: int, ma: int, min: int, max: int)
    requires NoClash(us)
    ensures NoneLost(us, mi, ma, min, max)
  {
  }

  /** The same in terms of what is dropped and added. */
  ghost predicate NoneTaken(us: seq<User>, mi: int, ma: int, min: int, max: int,
                            dropped: set<string>, added: set<string>) {
    forall i, g :: 0 <= i < |us| && us[i].name == Tag(g) && g !in added ==>
      && (Shown(us[i], mi, ma) && !Leaves(us[i], mi, ma, min, max) ==> g !in dropped)
      && (Leaves(us[i], mi, ma, min, max) ==> g in dropped || g !in Bag(us, mi, ma))
  }

  lemma {:induction false} LostIsTaken(us: seq<User>, mi: int, ma: int, min: int, max: int)
    ensures NoneLost(us, mi, ma, min, max) <==>
      NoneTaken(us, mi, ma, min, max, Dropped(us, mi, ma, min, max), Added(us, mi, ma, min, max))
  {
    EndsDropped(us, mi, ma, min, max);
    hide Bag, Mixed, Shown, Leaves, Tag;
    var dropped, added := Dropped(us, mi, ma, min, max), Added(us, mi, ma, min, max);
    forall g | g in Bag(us, mi, ma)
      ensures g in dropped <==> exists n :: 0 <= n <= |us| && g !in Mixed(us, n, mi, ma, min, max)
      ensures g !in added && g !in dropped ==> g in Bag(us, min, max)
      ensures g in dropped ==> (g in added <==> g in Bag(us, min, max))
    {
    }
    assert forall g :: g in dropped ==> g in Bag(us, mi, ma);
    hide Dropped, Added;
  }

  /** What is emitted never leaves a name too many, and a name is missing if and only if one is lost like that. */
  lemma {:induction false} ViewMoveExact(us: seq<User>, mi: int, ma: int, min: int, max: int)
    requires Distinct(us)
    ensures var dropped, added := Dropped(us, mi, ma, min, max), Added(us, mi, ma, min, max);
      var moved := (View(us, mi, ma) - (LeavingNames(us, |us|, mi, ma, min, max) + Tags(dropped)))
                   + (EnteringNames(us, |us|, mi, ma, min, max) + Tags(added));
      && moved <= View(us, min, max)
      && (moved == View(us, min, max) <==> NoneLost(us, mi, ma, min, max))
  {
    hide Tags, Tag, Bag, Shown, Leaves, Enters, InRange, NoneLost, NoneTaken, Distinct, Dropped, Added;
    var was, gone := NamesShown(us, mi, ma), LeavingNames(us, |us|, mi, ma, min, max);
    var come := EnteringNames(us, |us|, mi, ma, min, max);
    var gs := GroupsShown(us, mi, ma);
    var dropped, added := Dropped(us, mi, ma, min, max), Added(us, mi, ma, min, max);
    GroupsMove(us, mi, ma, min, max);
    NamesMove(us, mi, ma, min, max);
    TagsMove(gs, dropped, added);
    var t, td, ta := Tags(gs), Tags(dropped), Tags(added);
    MovedSets(was, gone, come, t, td, ta);
    LostNames(us, mi, ma, min, max, dropped, added);
    LostIsTaken(us, mi, ma, min, max);
  }

  /** What is missing: a name that stays and is taken for a dropped tag, or a tag that stays and is taken for a name. */
  lemma {:induction false} MovedSets(was: set<string>, gone: set<string>, come: set<string>,
                                     t: set<string>, td: set<string>, ta: set<string>)
    ensures var moved := ((was + t) - (gone + td)) + (come + ta);
      var now := ((was - gone) + come) + ((t - td) + ta);
      && moved <= now
      && (moved == now <==> ((was - gone) * td <= come + ta && (t - td) * gone <= come + ta))
  {
    var moved := ((was + t) - (gone + td)) + (come + ta);
    var now := ((was - gone) + come) + ((t - td) + ta);
    if moved == now {
      assert forall x :: x in (was - gone) * td ==> x in now;
      assert forall x :: x in (t - td) * gone ==> x in now;
    } else {
      var x :| x in now && x !in moved;
    }
  }

  lemma {:induction false} LostNames(us: seq<User>, min: int, max: int, min2: int, max2: int,
                                     dropped: set<string>, added: set<string>)
    requires Distinct(us)
    ensures var was, gone := NamesShown(us, min, max), LeavingNames(us, |us|, min, max, min2, max2);
      var come := EnteringNames(us, |us|, min, max, min2, max2);
      var t := Tags(GroupsShown(us, min, max));
      NoneTaken(us, min, max, min2, max2, dropped, added) <==>
        (was - gone) * Tags(dropped) <= come + Tags(added) && (t - Tags(dropped)) * gone <= come + Tags(added)
  {
    var was, gone := NamesShown(us, min, max), LeavingNames(us, |us|, min, max, min2, max2);
    var come := EnteringNames(us, |us|, min, max, min2, max2);
    var gs := GroupsShown(us, min, max);
    forall i: nat, g | i < |us| && us[i].name == Tag(g)
      ensures us[i].name in was <==> Shown(us[i], min, max)
      ensures us[i].name in gone <==> Leaves(us[i], min, max, min2, max2)
      ensures us[i].name in come ==> !Shown(us[i], min, max)
      ensures us[i].name in Tags(gs) <==> g in Bag(us, min, max)
      ensures us[i].name in Tags(dropped) <==> g in dropped
      ensures us[i].name in Tags(added) <==> g in added
    {
      NameIn(us, i, min, max, min2, max2);
      TagIn(g, gs);
      TagIn(g, dropped);
      TagIn(g, added);
    }
    LeavesShown(us, min, max, min2, max2);
    hide Tag, Bag, Shown, Leaves, Enters, InRange, Distinct;
    var ok := (was - gone) * Tags(dropped) <= come + Tags(added) && (Tags(gs) - Tags(dropped)) * gone <= come + Tags(added);
    if NoneTaken(us, min, max, min2, max2, dropped, added) {
      forall x | x in (was - gone) * Tags(dropped) || x in (Tags(gs) - Tags(dropped)) * gone
        ensures x in come + Tags(added)
      {
        var i :| 0 <= i < |us| && us[i].name == x;
        var g :| (g in dropped || g in gs) && Tag(g) == x;
      }
    }
    if ok {
      forall i, g | 0 <= i < |us| && us[i].name == Tag(g) && g !in added
        ensures Shown(us[i], min, max) && !Leaves(us[i], min, max, min2, max2) ==> g !in dropped
        ensures Leaves(us[i], min, max, min2, max2) ==> g in dropped || g !in Bag(us, min, max)
      {
        var x := us[i].name;
        assert x !in come + Tags(added) || !Shown(us[i], min, max);
      }
    }
  }

  lemma {:induction false} LeavesShown(us: seq<User>, min: int, max: int, min2: int, max2: int)
    ensures forall i :: 0 <= i < |us| && Leaves(us[i], min, max, min2, max2) ==> Shown(us[i], min, max)
  {
  }

  lemma {:induction false} TagIn(g: string, gs: set<string>)
    ensures Tag(g) in Tags(gs) <==> g in gs
  {
    if Tag(g) in Tags(gs) {
      var h :| h in gs && Tag(h) == Tag(g);
      assert Tag(h)[1..] == h && Tag(g)[1..] == g;
    }
  }

  lemma {:induction false} NameIn(us: seq<User>, i: nat, min: int, max: int, min2: int, max2: int)
    requires Distinct(us) && i < |us|
    ensures us[i].name in NamesShown(us, min, max) <==> Shown(us[i], min, max)
    ensures us[i].name in LeavingNames(us, |us|, min, max, min2, max2) <==> Leaves(us[i], min, max, min2, max2)
    ensures us[i].name in EnteringNames(us, |us|, min, max, min2, max2) ==> !Shown(us[i], min, max)
  {
    assert forall j :: 0 <= j < |us| && us[j].name == us[i].name ==> j == i;
  }

  // ------------------------------------------------------- the numbers that are sent

  /** Which loop over the users: that of the recount, or a branch of the pass. */
  datatype Kind = Recounted | Leaving | Entering

  predicate Moves(kind: Kind, u: User, mi: int, ma: int, min: int, max: int) {
    match kind
    case Recounted => Shown(u, min, max)
    case Leaving => Leaves(u, mi, ma, min, max)
    case Entering => Enters(u, mi, ma, min, max)
  }

  /** The memberships that count besides those of user `i`, at its turn. */
  ghost function Besides(kind: Kind, us: seq<User>, i: nat, mi: int, ma: int, min: int, max: int): multiset<string>
    requires i < |us|
  {
    if kind == Recounted then Bag(us[..i], min, max) else Others(us, i, mi, ma, min, max)
  }

  /** A user has its ID, and a group minus the ID of the member with whom it came or went. */
  predicate LineOf(u: User, besides: multiset<string>, k: string, v: int) {
    (k == u.name && v == u.uid) || (exists g :: g in u.groups && g !in besides && k == Tag(g) && v == -u.uid)
  }

  /** User `i` takes part, and the line is one of its lines. */
  ghost predicate LineFrom(kind: Kind, us: seq<User>, i: nat, mi: int, ma: int, min: int, max: int, k: string, v: int)
    requires i < |us|
  {
    Moves(kind, us[i], mi, ma, min, max) && LineOf(us[i], Besides(kind, us, i, mi, ma, min, max), k, v)
  }

  /** Every line comes from one of the first `n` users. */
  ghost predicate LinesOk(kind: Kind, lines: map<string, int>, us: seq<User>, n: nat, mi: int, ma: int, min: int, max: int)
    requires n <= |us|
  {
    forall k :: k in lines ==> exists i :: 0 <= i < n && LineFrom(kind, us, i, mi, ma, min, max, k, lines[k])
  }

  /** The lines of one user more. */
  ghost predicate LinesFrom(lines: map<string, int>, lines2: map<string, int>, u: User, besides: multiset<string>) {
    forall k :: k in lines2 ==> (k in lines && lines2[k] == lines[k]) || LineOf(u, besides, k, lines2[k])
  }

  lemma {:induction false} LinesNext(kind: Kind, lines: map<string, int>, lines2: map<string, int>,
                                     us: seq<User>, n: nat, mi: int, ma: int, min: int, max: int)
    requires n < |us| && LinesOk(kind, lines, us, n, mi, ma, min, max) && Moves(kind, us[n], mi, ma, min, max)
    requires LinesFrom(lines[us[n].name := us[n].uid], lines2, us[n], Besides(kind, us, n, mi, ma, min, max))
    ensures LinesOk(kind, lines2, us, n + 1, mi, ma, min, max)
  {
    hide Moves, Besides;
    forall k | k in lines2
      ensures exists i :: 0 <= i < n + 1 && LineFrom(kind, us, i, mi, ma, min, max, k, lines2[k])
    {
      if k in lines && lines2[k] == lines[k] {
        var i :| 0 <= i < n && LineFrom(kind, us, i, mi, ma, min, max, k, lines[k]);
      } else {
        assert LineFrom(kind, us, n, mi, ma, min, max, k, lines2[k]);
      }
    }
  }

  lemma {:induction false} LinesPass(kind: Kind, lines: map<string, int>, us: seq<User>, n: nat,
                                     mi: int, ma: int, min: int, max: int)
    requires n < |us| && LinesOk(kind, lines, us, n, mi, ma, min, max)
    ensures LinesOk(kind, lines, us, n + 1, mi, ma, min, max)
  {
    hide Moves, Besides, LineOf;
  }

  lemma {:induction false} NoLines(kind: Kind, us: seq<User>, mi: int, ma: int, min: int, max: int)
    ensures LinesOk(kind, map[], us, 0, mi, ma, min, max)
  {
  }

  lemma {:induction false} OneLine(lines: map<string, int>, lines2: map<string, int>, u: User,
                                   besides: multiset<string>, g: string)
    requires LinesFrom(lines, lines2, u, besides) && g in u.groups && g !in besides
    ensures LinesFrom(lines, lines2[Tag(g) := -u.uid], u, besides)
  {
    assert LineOf(u, besides, Tag(g), -u.uid);
  }

  lemma {:induction false} SameLines(lines: map<string, int>, u: User, besides: multiset<string>)
    ensures LinesFrom(lines, lines, u, besides)
  {
  }

  /** Without clashes the numbers are determined: no group comes or goes twice. */
  lemma {:induction false} LinesDetermined(kind: Kind, l1: map<string, int>, l2: map<string, int>, us: seq<User>,
                                           mi: int, ma: int, min: int, max: int, k: string)
    requires Distinct(us) && NoClash(us) && k in l1 && k in l2
    requires LinesOk(kind, l1, us, |us|, mi, ma, min, max) && LinesOk(kind, l2, us, |us|, mi, ma, min, max)
    ensures l1[k] == l2[k]
  {
    hide LineFrom, Distinct, NoClash;
    var i :| 0 <= i < |us| && LineFrom(kind, us, i, mi, ma, min, max, k, l1[k]);
    var j :| 0 <= j < |us| && LineFrom(kind, us, j, mi, ma, min, max, k, l2[k]);
    SameLine(kind, us, i, j, mi, ma, min, max, k, l1[k], l2[k]);
  }

  lemma {:induction false} SameLine(kind: Kind, us: seq<User>, i: nat, j: nat, mi: int, ma: int, min: int, max: int,
                                    k: string, v: int, w: int)
    requires Distinct(us) && NoClash(us) && i < |us| && j < |us|
    requires LineFrom(kind, us, i, mi, ma, min, max, k, v) && LineFrom(kind, us, j, mi, ma, min, max, k, w)
    ensures v == w
  {
    hide Moves, Besides, Tag;
    if k == us[i].name || k == us[j].name {
      assert i == j;
    } else {
      var g :| g in us[i].groups && g !in Besides(kind, us, i, mi, ma, min, max) && k == Tag(g) && v == -us[i].uid;
      var h :| h in us[j].groups && h !in Besides(kind, us, j, mi, ma, min, max) && k == Tag(h) && w == -us[j].uid;
      TagTail(g);
      TagTail(h);
      if i < j {
        OnceOnly(kind, us, i, j, mi, ma, min, max, g);
      } else if j < i {
        OnceOnly(kind, us, j, i, mi, ma, min, max, g);
      }
    }
  }

  lemma {:induction false} TagTail(g: string)
    ensures |Tag(g)| > 0 && Tag(g)[1..] == g
  {
  }

  /** Of two users in the group, only one can bring it, and only one can take it away. */
  lemma {:induction false} OnceOnly(kind: Kind, us: seq<User>, i: nat, j: nat, mi: int, ma: int, min: int, max: int, g: string)
    requires i < j < |us| && Moves(kind, us[i], mi, ma, min, max) && Moves(kind, us[j], mi, ma, min, max)
    requires g in us[i].groups && g in us[j].groups
    ensures g in Besides(kind, us, i, mi, ma, min, max) || g in Besides(kind, us, j, mi, ma, min, max)
  {
    if kind == Leaving {
      assert us[i + 1..][j - i - 1] == us[j];
      GroupInBag(us[i + 1..], j - i - 1, mi, ma, g);
    } else {
      assert us[..j][i] == us[i];
      GroupInBag(us[..j], i, min, max, g);
    }
  }

  lemma {:induction false} GroupInBag(us: seq<User>, i: nat, min: int, max: int, g: string)
    requires i < |us| && Shown(us[i], min, max) && g in us[i].groups
    ensures g in Bag(us, min, max)
    decreases i
  {
    hide Shown;
    if i > 0 {
      GroupInBag(us[1..], i - 1, min, max, g);
    }
  }

  // ----------------------------------------------------------------- the class

  class KDModule {
    const usermap: seq<User>
    var groupmap: map<string, int>
    var minshowuid: int
    var maxshowuid: int
    var updateOK: bool
    ghost var shown: set<string>     // the names that the lists show

    constructor (usermap: seq<User>, min: int, max: int)
      ensures this.usermap == usermap && minshowuid == min && maxshowuid == max && !updateOK
    {
      this.usermap, minshowuid, maxshowuid, updateOK := usermap, min, max, false;
      groupmap, shown := map[], {};
    }

    /** The counts and the lists are those of a fresh recount. */
    ghost predicate UpToDate()
      reads this
    {
      && Counts(groupmap, Bag(usermap, minshowuid, maxshowuid))
      && shown == View(usermap, minshowuid, maxshowuid)
    }

    lemma {:induction false} UpToDateIs()
      ensures UpToDate() <==> Counted() && shown == View(usermap, minshowuid, maxshowuid)
    {
    }

    /** The counts are those of a fresh recount. */
    ghost predicate Counted()
      reads this
    {
      Counts(groupmap, Bag(usermap, minshowuid, maxshowuid))
    }

    /** The memberships of one user more; the groups that are new get a line in `lines`. */
    method GainGroups(u: User, lines: map<string, int>, ghost names: set<string>, ghost b: multiset<string>,
                      ghost before: set<string>, ghost dropped: set<string>, ghost added: set<string>,
                      ghost toLose: multiset<string>)
      returns (lines2: map<string, int>, ghost added2: set<string>)
      requires Counts(groupmap, b) && toLose <= b && Tracked(groupmap, before, dropped, added, toLose)
      requires lines.Keys == names + Tags(added)
      modifies this`groupmap
      ensures Counts(groupmap, b + Groups(u)) && Tracked(groupmap, before, dropped, added2, toLose)
      ensures lines2.Keys == names + Tags(added2) && LinesFrom(lines, lines2, u, b)
    {
      hide Counts, Tracked, Tags, Tag, LinesFrom;
      lines2, added2 := lines, added;
      SameLines(lines, u, b);
      var j := 0;
      assert b + multiset(u.groups[..0]) == b;
      while j < |u.groups|
        invariant j <= |u.groups|
        invariant Counts(groupmap, b + multiset(u.groups[..j])) && Tracked(groupmap, before, dropped, added2, toLose)
        invariant lines2.Keys == names + Tags(added2) && LinesFrom(lines, lines2, u, b)
      {
        var g := u.groups[j];
        UpTo(u.groups, j);
        ghost var c := b + multiset(u.groups[..j]);
        CountsIn(groupmap, c, g);
        CountUp(groupmap, c, g);
        TrackUp(groupmap, before, dropped, added2, toLose, g);
        assert c + multiset{g} == b + multiset(u.groups[..j + 1]);
        if g !in groupmap {
          groupmap := groupmap[g := 1];
          OneLine(lines, lines2, u, b, g);
          lines2 := lines2[Tag(g) := -u.uid];
          TagsAdd(added2, g);
          added2 := added2 + {g};
        } else {
          groupmap := groupmap[g := groupmap[g] + 1];
        }
        j := j + 1;
      }
      assert u.groups[..j] == u.groups;
    }

    /** The memberships of one user less; the groups that are gone get a line in `lines`. */
    method LoseGroups(u: User, lines: map<string, int>, ghost names: set<string>, ghost b: multiset<string>,
                      ghost before: set<string>, ghost dropped: set<string>, ghost added: set<string>,
                      ghost toLose: multiset<string>)
      returns (lines2: map<string, int>, ghost dropped2: set<string>)
      requires Counts(groupmap, b + Groups(u)) && Tracked(groupmap, before, dropped, added, toLose + Groups(u))
      requires lines.Keys == names + Tags(dropped)
      modifies this`groupmap
      ensures Counts(groupmap, b) && Tracked(groupmap, before, dropped2, added, toLose)
      ensures lines2.Keys == names + Tags(dropped2) && LinesFrom(lines, lines2, u, b)
      ensures dropped <= dropped2 && forall g :: g in dropped2 && g !in dropped ==> g !in groupmap
    {
      hide Counts, Tracked, Tags, Tag, LinesFrom;
      lines2, dropped2 := lines, dropped;
      SameLines(lines, u, b);
      var j := 0;
      assert u.groups[0..] == u.groups;
      while j < |u.groups|
        invariant j <= |u.groups|
        invariant Counts(groupmap, b + multiset(u.groups[j..]))
        invariant Tracked(groupmap, before, dropped2, added, toLose + multiset(u.groups[j..]))
        invariant lines2.Keys == names + Tags(dropped2) && LinesFrom(lines, lines2, u, b)
        invariant dropped <= dropped2 && forall g :: g in dropped2 && g !in dropped ==> g !in groupmap
      {
        var g := u.groups[j];
        UpTo(u.groups, j);
        ghost var rest := multiset(u.groups[j + 1..]);
        assert b + multiset(u.groups[j..]) == b + rest + multiset{g};
        assert toLose + multiset(u.groups[j..]) == toLose + rest + multiset{g};
        CountDown(groupmap, b + rest, g);
        TrackDown(groupmap, before, dropped2, added, toLose + rest, g);
        if groupmap[g] == 1 {
          groupmap := groupmap - {g};
          CountsIn(groupmap, b + rest, g);
          OneLine(lines, lines2, u, b, g);
          lines2 := lines2[Tag(g) := -u.uid];
          TagsAdd(dropped2, g);
          dropped2 := dropped2 + {g};
        } else {
          groupmap := groupmap[g := groupmap[g] - 1];
        }
        j := j + 1;
      }
      assert b + multiset(u.groups[j..]) == b && toLose + multiset(u.groups[j..]) == toLose;
    }

    /** The recount. */
    method PropagateUsers() returns (lusers: map<string, int>)
      modifies this`groupmap, this`updateOK, this`shown
      ensures UpToDate() && updateOK && lusers.Keys == View(usermap, minshowuid, maxshowuid) == shown
      ensures LinesOk(Recounted, lusers, usermap, |usermap|, 0, 0, minshowuid, maxshowuid)
    {
      hide Counts, Tracked, Tags, Bag, Shown, Groups, LinesOk, LinesFrom;
      groupmap := map[];
      lusers := map[];
      ghost var added: set<string> := {};
      var i := 0;
      NothingCounted();
      NoLines(Recounted, usermap, 0, 0, minshowuid, maxshowuid);
      while i < |usermap|
        invariant i <= |usermap|
        invariant Counts(groupmap, Bag(usermap[..i], minshowuid, maxshowuid))
        invariant Tracked(groupmap, {}, {}, added, multiset{})
        invariant lusers.Keys == NamesUpTo(usermap, i, minshowuid, maxshowuid) + Tags(added)
        invariant LinesOk(Recounted, lusers, usermap, i, 0, 0, minshowuid, maxshowuid)
      {
        var u := usermap[i];
        BagUpTo(usermap, i, minshowuid, maxshowuid);
        NamesStep(usermap, i, minshowuid, maxshowuid);
        LinesPass(Recounted, lusers, usermap, i, 0, 0, minshowuid, maxshowuid);
        if Shown(u, minshowuid, maxshowuid) {
          ghost var was := lusers;
          lusers := lusers[u.name := u.uid];
          ghost var names := NamesUpTo(usermap, i + 1, minshowuid, maxshowuid);
          ghost var bag := Bag(usermap[..i], minshowuid, maxshowuid);
          lusers, added := GainGroups(u, lusers, names, bag, {}, {}, added, multiset{});
          LinesNext(Recounted, was, lusers, usermap, i, 0, 0, minshowuid, maxshowuid);
        }
        i := i + 1;
      }
      assert usermap[..i] == usermap;
      ViewIs(usermap, minshowuid, maxshowuid, groupmap, added);
      shown := lusers.Keys;
      updateOK := true;
    }

    /** The change of the range: what is to be taken off the lists, and then put onto them. */
    method SlotMinMaxUID(min: int, max: int) returns (dlusers: map<string, int>, alusers: map<string, int>)
      requires Distinct(usermap) && (updateOK ==> Counted())
      modifies this`groupmap, this`minshowuid, this`maxshowuid, this`shown
      ensures minshowuid == min && maxshowuid == max && updateOK == old(updateOK)
      ensures updateOK ==> var us, mi, ma, n := usermap, old(minshowuid), old(maxshowuid), |usermap|;
        && Counted() && shown == (old(shown) - dlusers.Keys) + alusers.Keys
        && dlusers.Keys == LeavingNames(us, n, mi, ma, min, max) + Tags(Dropped(us, mi, ma, min, max))
        && alusers.Keys == EnteringNames(us, n, mi, ma, min, max) + Tags(Added(us, mi, ma, min, max))
        && LinesOk(Leaving, dlusers, us, n, mi, ma, min, max) && LinesOk(Entering, alusers, us, n, mi, ma, min, max)
      ensures updateOK && old(UpToDate()) ==>
        && shown <= View(usermap, min, max)
        && (UpToDate() <==> NoneLost(usermap, old(minshowuid), old(maxshowuid), min, max))
      ensures updateOK && old(UpToDate()) && NoClash(usermap) ==> UpToDate()
      ensures !updateOK ==> dlusers == map[] && alusers == map[] && groupmap == old(groupmap) && shown == old(shown)
    {
      hide View, Bag, NoneLost, Counts, Tags, NoClash, Distinct, LeavingNames, EnteringNames, Dropped, Added, LinesOk;
      dlusers, alusers := map[], map[];
      if updateOK {
        dlusers, alusers := Pass(min, max);
        ViewMoveExact(usermap, minshowuid, maxshowuid, min, max);
        if NoClash(usermap) {
          NoneClashes(usermap, minshowuid, maxshowuid, min, max);
        }
        shown := (shown - dlusers.Keys) + alusers.Keys;
      }
      minshowuid, maxshowuid := min, max;
    }

    /** The loop over all users. */
    method Pass(min: int, max: int) returns (dl: map<string, int>, al: map<string, int>)
      requires Counted()
      modifies this`groupmap
      ensures Counts(groupmap, Bag(usermap, min, max))
      ensures dl.Keys == LeavingNames(usermap, |usermap|, minshowuid, maxshowuid, min, max)
                         + Tags(Dropped(usermap, minshowuid, maxshowuid, min, max))
      ensures al.Keys == EnteringNames(usermap, |usermap|, minshowuid, maxshowuid, min, max)
                         + Tags(Added(usermap, minshowuid, maxshowuid, min, max))
      ensures LinesOk(Leaving, dl, usermap, |usermap|, minshowuid, maxshowuid, min, max)
      ensures LinesOk(Entering, al, usermap, |usermap|, minshowuid, maxshowuid, min, max)
    {
      hide Counts, Tracked, Tags, Bag, Groups, InRange, ToLose, LeavingNames, EnteringNames, LinesOk, LinesFrom, DroppedBy,
        Added, Others, Mixed;
      dl, al := map[], map[];
      ghost var dropped: set<string>, added: set<string> := {}, {};
      ghost var mi, ma := minshowuid, maxshowuid;
      ghost var was := GroupsShown(usermap, mi, ma);
      CountsKeys(groupmap, Bag(usermap, mi, ma));
      PassStarts(usermap, groupmap, mi, ma, min, max);
      DroppedStart(usermap, mi, ma, min, max);
      NoLines(Leaving, usermap, mi, ma, min, max);
      NoLines(Entering, usermap, mi, ma, min, max);
      var i := 0;
      while i < |usermap|
        invariant i <= |usermap|
        invariant Counts(groupmap, Mixed(usermap, i, mi, ma, min, max))
        invariant Tracked(groupmap, was, dropped, added, ToLose(usermap[i..], mi, ma, min, max))
        invariant dropped == DroppedBy(usermap, i, mi, ma, min, max)
        invariant dl.Keys == LeavingNames(usermap, i, mi, ma, min, max) + Tags(dropped)
        invariant al.Keys == EnteringNames(usermap, i, mi, ma, min, max) + Tags(added)
        invariant LinesOk(Leaving, dl, usermap, i, mi, ma, min, max)
        invariant LinesOk(Entering, al, usermap, i, mi, ma, min, max)
      {
        var u := usermap[i];
        ghost var b := Others(usermap, i, mi, ma, min, max);
        ghost var lose := ToLose(usermap[i + 1..], mi, ma, min, max);
        ghost var dl0, al0, dropped0 := dl, al, dropped;
        MixedStep(usermap, i, mi, ma, min, max);
        ToLoseStep(usermap, i, mi, ma, min, max);
        LeavingStep(usermap, i, mi, ma, min, max);
        LinesPass(Leaving, dl, usermap, i, mi, ma, min, max);
        LinesPass(Entering, al, usermap, i, mi, ma, min, max);
        if u.uid != 0 {
          if InRange(u, minshowuid, maxshowuid) && !InRange(u, min, max) {
            dl := dl[u.name := u.uid];
            dl, dropped := LoseGroups(u, dl, LeavingNames(usermap, i + 1, mi, ma, min, max), b, was, dropped, added, lose);
            LinesNext(Leaving, dl0, dl, usermap, i, mi, ma, min, max);
          } else if InRange(u, min, max) && !InRange(u, minshowuid, maxshowuid) {
            al := al[u.name := u.uid];
            al, added := GainGroups(u, al, EnteringNames(usermap, i + 1, mi, ma, min, max), b, was, dropped, added, lose);
            LinesNext(Entering, al0, al, usermap, i, mi, ma, min, max);
          }
        }
        DroppedStep(usermap, i, mi, ma, min, max, groupmap, dropped0, dropped, added, lose);
        i := i + 1;
      }
      PassEnds(usermap, mi, ma, min, max);
      AddedIs(usermap, mi, ma, min, max, groupmap, added, ToLose(usermap[i..], mi, ma, min, max));
    }
  }

  lemma {:induction false} CountsIn(m: map<string, int>, b: multiset<string>, g: string)
    requires Counts(m, b)
    ensures g in m <==> g in b
  {
  }

  lemma {:induction false} NothingCounted()
    ensures Counts(map[], Bag([], 0, 0)) && Tracked(map[], {}, {}, {}, multiset{}) && Tags({}) == {}
    ensures forall min, max :: Bag([], min, max) == multiset{}
  {
  }

  ghost function NamesUpTo(us: seq<User>, n: nat, min: int, max: int): set<string>
    requires n <= |us|
  {
    set i | 0 <= i < n && Shown(us[i], min, max) :: us[i].name
  }

  lemma {:induction false} NamesStep(us: seq<User>, n: nat, min: int, max: int)
    requires n < |us|
    ensures NamesUpTo(us, n + 1, min, max) ==
      if Shown(us[n], min, max) then NamesUpTo(us, n, min, max) + {us[n].name} else NamesUpTo(us, n, min, max)
  {
    hide Shown;
  }

  lemma {:induction false} ViewIs(us: seq<User>, min: int, max: int, m: map<string, int>, added: set<string>)
    requires Counts(m, Bag(us, min, max)) && Tracked(m, {}, {}, added, multiset{})
    ensures View(us, min, max) == NamesUpTo(us, |us|, min, max) + Tags(added)
  {
    hide Bag, Tags, Shown;
    CountsKeys(m, Bag(us, min, max));
    assert NamesUpTo(us, |us|, min, max) == NamesShown(us, min, max);
    assert ({} - {}) + added == added;
  }

  lemma {:induction false} MixedStep(us: seq<User>, i: nat, mi: int, ma: int, min: int, max: int)
    requires i < |us|
    ensures var u, b := us[i], Others(us, i, mi, ma, min, max);
      && Mixed(us, i, mi, ma, min, max) == (if Shown(u, mi, ma) then b + Groups(u) else b)
      && Mixed(us, i + 1, mi, ma, min, max) == (if Shown(u, min, max) then b + Groups(u) else b)
      && ToLose(us[i + 1..], mi, ma, min, max) <= b
  {
    hide Bag, Groups, ToLose, Shown;
    BagStep(us, i, mi, ma);
    BagUpTo(us, i, min, max);
    ToLoseInBag(us[i + 1..], mi, ma, min, max);
  }

  lemma {:induction false} LeavingStep(us: seq<User>, n: nat, mi: int, ma: int, min: int, max: int)
    requires n < |us|
    ensures LeavingNames(us, n + 1, mi, ma, min, max) ==
      var names := LeavingNames(us, n, mi, ma, min, max);
      if Leaves(us[n], mi, ma, min, max) then names + {us[n].name} else names
    ensures EnteringNames(us, n + 1, mi, ma, min, max) ==
      var names := EnteringNames(us, n, mi, ma, min, max);
      if Enters(us[n], mi, ma, min, max) then names + {us[n].name} else names
  {
    hide Leaves, Enters;
  }

  lemma {:induction false} PassStarts(us: seq<User>, m: map<string, int>, mi: int, ma: int, min: int, max: int)
    requires Counts(m, Bag(us, mi, ma))
    ensures Counts(m, Mixed(us, 0, mi, ma, min, max))
    ensures Tracked(m, GroupsShown(us, mi, ma), {}, {}, ToLose(us[0..], mi, ma, min, max)) && Tags({}) == {}
    ensures LeavingNames(us, 0, mi, ma, min, max) == {} && EnteringNames(us, 0, mi, ma, min, max) == {}
  {
    assert us[..0] == [] && us[0..] == us;
    assert multiset{} + Bag(us, mi, ma) == Bag(us, mi, ma);
  }

  lemma {:induction false} PassEnds(us: seq<User>, mi: int, ma: int, min: int, max: int)
    ensures Mixed(us, |us|, mi, ma, min, max) == Bag(us, min, max)
  {
    assert us[..|us|] == us && us[|us|..] == [];
  }

  // -------------------------------------------------------------- a lost name

  /** User "@g" leaves, and its name is taken for that of the group, which stays. */
  method ClashingName() returns (m: KDModule)
    ensures fresh(m) && m.usermap == [User("@g", 5, []), User("b", 1, ["g"])]
    ensures m.minshowuid == 1 && m.maxshowuid == 4
    ensures !m.UpToDate() && "@g" in View(m.usermap, 1, 4) && "@g" !in m.shown
  {
    hide View, KDModule.UpToDate, KDModule.Counted, Dropped, Added, LeavingNames, EnteringNames, Tags, NoneLost, Distinct, Bag, Counts, LinesOk, NoClash;
    var us := [User("@g", 5, []), User("b", 1, ["g"])];
    ClashLoses(us);
    m := new KDModule(us, 1, 9);
    var lusers := m.PropagateUsers();
    m.UpToDateIs();
    var dlusers, alusers := m.SlotMinMaxUID(1, 4);
  }

  lemma {:induction false} ClashLoses(us: seq<User>)
    requires us == [User("@g", 5, []), User("b", 1, ["g"])]
    ensures Distinct(us) && !NoneLost(us, 1, 9, 1, 4) && "@g" in View(us, 1, 4)
    ensures "@g" in LeavingNames(us, |us|, 1, 9, 1, 4)
    ensures "@g" !in EnteringNames(us, |us|, 1, 9, 1, 4) + Tags(Added(us, 1, 9, 1, 4))
  {
    hide Bag, Dropped, LeavingNames, EnteringNames, NamesShown, Tags, Mixed;
    assert us[0].name == Tag("g") && Leaves(us[0], 1, 9, 1, 4) && !Shown(us[0], 1, 4);
    NameIn(us, 0, 1, 9, 1, 4);
    AlwaysThere(us);
    TagIn("g", GroupsShown(us, 1, 4));
    TagIn("g", Added(us, 1, 9, 1, 4));
    EnteringIs(us);
  }

  lemma {:induction false} EnteringIs(us: seq<User>)
    requires us == [User("@g", 5, []), User("b", 1, ["g"])]
    ensures EnteringNames(us, |us|, 1, 9, 1, 4) == {}
  {
  }

  lemma {:induction false} AlwaysThere(us: seq<User>)
    requires us == [User("@g", 5, []), User("b", 1, ["g"])]
    ensures "g" in Bag(us, 1, 9) && "g" in Bag(us, 1, 4) && "g" !in Dropped(us, 1, 9, 1, 4)
    ensures forall n :: 0 <= n <= |us| ==> "g" in Mixed(us, n, 1, 9, 1, 4)
  {
    hide Bag;
    GroupInBag(us, 1, 1, 9, "g");
    GroupInBag(us, 1, 1, 4, "g");
    GroupInBag(us[1..], 0, 1, 9, "g");
    assert us[0..] == us && us[..2] == us;
    forall n | 0 <= n <= |us|
      ensures "g" in Mixed(us, n, 1, 9, 1, 4)
    {
      assert n == 0 || n == 1 || n == 2;
    }
  }

  // ------------------------------------------------------------------ in raw terms

  /** Whom a fresh view shows: the superuser and the users in the range, and each group of theirs behind an at sign. */
  lemma {:induction false} ViewExactly(us: seq<User>, min: int, max: int, x: string)
    ensures x in View(us, min, max) <==>
      exists i :: 0 <= i < |us| && (us[i].uid == 0 || (min <= us[i].uid && us[i].uid <= max)) &&
        (x == us[i].name || (x != "" && x[0] == '@' && x[1..] in us[i].groups))
  {
    hide Bag, Tag;
    if x in Tags(GroupsShown(us, min, max)) {
      var g :| g in Bag(us, min, max) && x == Tag(g);
      TagParts(g);
      var i := MemberShown(us, min, max, g);
      assert Shown(us[i], min, max);
    }
    if i :| 0 <= i < |us| && Shown(us[i], min, max) && x != "" && x[0] == '@' && x[1..] in us[i].groups {
      GroupInBag(us, i, min, max, x[1..]);
      TagIn(x[1..], GroupsShown(us, min, max));
      TagBack(x);
    }
    assert x in NamesShown(us, min, max) <==> exists i :: 0 <= i < |us| && Shown(us[i], min, max) && us[i].name == x;
  }

  lemma {:induction false} TagParts(g: string)
    ensures Tag(g) != "" && Tag(g)[0] == '@' && Tag(g)[1..] == g
  {
  }

  lemma {:induction false} TagBack(x: string)
    requires x != "" && x[0] == '@'
    ensures Tag(x[1..]) == x
  {
  }

  lemma {:induction false} MemberShown(us: seq<User>, min: int, max: int, g: string) returns (i: nat)
    requires g in Bag(us, min, max)
    ensures i < |us| && Shown(us[i], min, max) && g in us[i].groups
  {
    hide Shown;
    if Shown(us[0], min, max) && g in us[0].groups {
      i := 0;
    } else {
      i := MemberShown(us[1..], min, max, g);
      i := i + 1;
    }
  }
}
