/** Websocket groups as values: which connections a group holds, and which group a connection is said to be in. */
module HubViews {
  import opened Outcomes

  /** `members` is group::cons of every group; `group` is what the attribute of each connection names. */
  datatype View<!C(==)> = View(members: map<string, set<C>>, group: map<C, string>)

  function Start<C(==)>(): View<C> {
    View(map["" := {}], map[])
  }

  function Added<C(==)>(members: map<string, set<C>>, g: string, c: C): map<string, set<C>>
    requires g in members
  {
    members[g := members[g] + {c}]
  }

  function Removed<C(==)>(members: map<string, set<C>>, g: string, c: C): map<string, set<C>>
    requires g in members
  {
    members[g := members[g] - {c}]
  }

  /** The members after `c` has left the group its attribute names. */
  function Left<C(==)>(v: View<C>, c: C): map<string, set<C>> {
    if c in v.group && v.group[c] in v.members then Removed(v.members, v.group[c], c) else v.members
  }

  /** on_connect */
  function Connected<C(==)>(v: View<C>, c: C): View<C>
    requires "" in v.members
  {
    View(Added(v.members, "", c), v.group[c := ""])
  }

  /** on_disconnect */
  function Disconnected<C(==)>(v: View<C>, c: C): View<C> {
    View(Left(v, c), v.group - {c})
  }

  /** set_connection_group: a group that does not exist is ignored. */
  function Moved<C(==)>(v: View<C>, c: C, g: string): View<C> {
    if g !in v.members then v else View(Added(Left(v, c), g, c), v.group[c := g])
  }

  /** add_group: a group that exists is kept. */
  function GroupAdded<C(==)>(v: View<C>, g: string): View<C> {
    if g in v.members then v else v.(members := v.members[g := {}])
  }

  /** close_all empties the groups and leaves the attributes alone. */
  function AllClosed<C(==)>(v: View<C>): View<C> {
    v.(members := map g | g in v.members :: {})
  }

  // What the two sides of the index have to do with each other

  /** A connection in a group has an attribute that names the group, so it is in no other. */
  ghost predicate MembersNamed<C>(v: View<C>) {
    && "" in v.members
    && (forall c :: c in v.group ==> v.group[c] in v.members)
    && forall g, c :: g in v.members && c in v.members[g] ==> c in v.group && v.group[c] == g
  }

  /** The members of a group are exactly the connections whose attribute names it. */
  ghost predicate InverseImage<C>(v: View<C>) {
    MembersNamed(v) && forall c :: c in v.group ==> c in v.members[v.group[c]]
  }

  ghost predicate Disjoint<C>(v: View<C>) {
    forall g, h :: g in v.members && h in v.members && g != h ==> v.members[g] !! v.members[h]
  }

  lemma {:induction false} NamedDisjoint<C>(v: View<C>)
    requires MembersNamed(v)
    ensures Disjoint(v)
  {
    forall g, h | g in v.members && h in v.members && g != h ensures v.members[g] !! v.members[h] {
      assert forall c :: c in v.members[g] ==> v.group[c] == g;
    }
  }

  // Runs

  datatype Step<!C(==)> = Connect(c: C) | Disconnect(c: C) | Move(c: C, g: string) | AddGroup(g: string) | CloseAll

  function Next<C(==)>(v: View<C>, step: Step<C>): (w: View<C>)
    requires "" in v.members
    ensures "" in w.members
  {
    match step
    case Connect(c) => Connected(v, c)
    case Disconnect(c) => Disconnected(v, c)
    case Move(c, g) => Moved(v, c, g)
    case AddGroup(g) => GroupAdded(v, g)
    case CloseAll => AllClosed(v)
  }

  function Exec<C(==)>(steps: seq<Step<C>>): (v: View<C>)
    ensures "" in v.members
  {
    if steps == [] then Start() else Next(Exec(steps[..|steps| - 1]), steps[|steps| - 1])
  }

  /** No group but `g` has `c` as a member. */
  ghost predicate InNoOther<C>(v: View<C>, c: C, g: string) {
    forall h :: h in v.members && c in v.members[h] ==> h == g
  }

  /** The groups there are: the default one and those added. */
  ghost function Names<C>(steps: seq<Step<C>>): set<string> {
    if steps == [] then {""}
    else Names(steps[..|steps| - 1]) + if steps[|steps| - 1].AddGroup? then {steps[|steps| - 1].g} else {}
  }

  /** Where the calls say a connection is: where it was connected or moved to last, unless it has been disconnected. */
  ghost function Located<C>(steps: seq<Step<C>>, c: C): Option<string> {
    if steps == [] then None
    else
      var before, step := steps[..|steps| - 1], steps[|steps| - 1];
      if step.Connect? && step.c == c then Some("")
      else if step.Disconnect? && step.c == c then None
      else if step.Move? && step.c == c && step.g in Names(before) then Some(step.g)
      else Located(before, c)
  }

  /** The attributes name that place, over every run. */
  lemma {:induction false} AttributesAre<C>(steps: seq<Step<C>>, c: C)
    ensures Exec(steps).members.Keys == Names(steps)
    ensures var v := Exec(steps); Located(steps, c) == if c in v.group then Some(v.group[c]) else None
  {
    if steps != [] {
      AttributesAre(steps[..|steps| - 1], c);
    }
  }

  /** on_connect of a connection that is in a group other than the default one leaves it there too. */
  lemma {:induction false} ConnectKeepsExactly<C>(v: View<C>, c: C)
    requires "" in v.members
    ensures MembersNamed(v) ==> (MembersNamed(Connected(v, c)) <==> InNoOther(v, c, ""))
  {
    forall g | g in v.members && c in v.members[g] && g != "" ensures !MembersNamed(Connected(v, c)) {
      assert c in Connected(v, c).members[g] && Connected(v, c).group[c] == "";
    }
  }

  /** Every other operation keeps the index, and all but close_all keep both directions of it. */
  lemma StepKeeps<C>(v: View<C>, step: Step<C>)
    requires MembersNamed(v) && (step.Connect? ==> step.c !in v.group)
    ensures MembersNamed(Next(v, step))
    ensures InverseImage(v) && !step.CloseAll? ==> InverseImage(Next(v, step))
  {
  }

  ghost function StaleAfter<C>(v: View<C>, stale: set<C>, step: Step<C>): set<C> {
    match step
    case Connect(c) => stale - {c}
    case Disconnect(c) => stale - {c}
    case Move(c, g) => if g in v.members then stale - {c} else stale
    case AddGroup(_) => stale
    case CloseAll => v.group.Keys
  }

  /** The connections whose attribute a close_all has left behind: not connected, disconnected or moved since. */
  ghost function Stale<C>(steps: seq<Step<C>>): set<C> {
    if steps == [] then {}
    else
      var before := steps[..|steps| - 1];
      StaleAfter(Exec(before), Stale(before), steps[|steps| - 1])
  }

  ghost function BehindAfter<C>(v: View<C>, stale: set<C>, behind: set<(string, C)>, step: Step<C>): set<(string, C)> {
    match step
    case Connect(c) => behind + (if c in v.group && c !in stale then {(v.group[c], c)} else {}) - {("", c)}
    case Disconnect(_) => behind
    case Move(c, g) => if g in v.members then behind - {(g, c)} else behind
    case AddGroup(_) => behind
    case CloseAll => {}
  }

  /** The memberships an on_connect has left behind: it gave a member of some group a new attribute. */
  ghost function Behind<C>(steps: seq<Step<C>>): set<(string, C)> {
    if steps == [] then {}
    else
      var before := steps[..|steps| - 1];
      BehindAfter(Exec(before), Stale(before), Behind(before), steps[|steps| - 1])
  }

  /** Who is in a group: those whose attribute names it and is not stale, and those left behind in it. */
  ghost predicate MembersAre<C>(v: View<C>, stale: set<C>, behind: set<(string, C)>) {
    && (forall c :: c in v.group ==> v.group[c] in v.members)
    && stale <= v.group.Keys
    && (forall p :: p in behind ==>
          p.0 in v.members && p.1 in v.members[p.0] && !(p.1 in v.group && v.group[p.1] == p.0))
    && (forall c :: c in v.group && c !in stale ==> c in v.members[v.group[c]])
    && forall g, c :: g in v.members && c in v.members[g] ==>
         (c in v.group && v.group[c] == g && c !in stale) || (g, c) in behind
  }

  lemma MembersAfterConnect<C>(v: View<C>, stale: set<C>, behind: set<(string, C)>, c: C)
    requires MembersAre(v, stale, behind) && "" in v.members
    ensures MembersAre(Connected(v, c), StaleAfter(v, stale, Connect(c)), BehindAfter(v, stale, behind, Connect(c)))
  {
  }

  lemma MembersAfterMove<C>(v: View<C>, stale: set<C>, behind: set<(string, C)>, c: C, g: string)
    requires MembersAre(v, stale, behind) && "" in v.members
    ensures MembersAre(Moved(v, c, g), StaleAfter(v, stale, Move(c, g)), BehindAfter(v, stale, behind, Move(c, g)))
  {
  }

  lemma {:induction false} MembersAfter<C>(v: View<C>, stale: set<C>, behind: set<(string, C)>, step: Step<C>)
    requires MembersAre(v, stale, behind) && "" in v.members
    ensures MembersAre(Next(v, step), StaleAfter(v, stale, step), BehindAfter(v, stale, behind, step))
  {
    match step
    case Connect(c) => MembersAfterConnect(v, stale, behind, c);
    case Move(c, g) => MembersAfterMove(v, stale, behind, c, g);
    case _ =>
  }

  lemma {:induction false} MembersOverRuns<C>(steps: seq<Step<C>>)
    ensures MembersAre(Exec(steps), Stale(steps), Behind(steps))
  {
    if steps != [] {
      var before := steps[..|steps| - 1];
      MembersOverRuns(before);
      MembersAfter(Exec(before), Stale(before), Behind(before), steps[|steps| - 1]);
    }
  }

  lemma {:induction false} NamedWhen<C>(v: View<C>, stale: set<C>, behind: set<(string, C)>)
    requires MembersAre(v, stale, behind) && "" in v.members
    ensures MembersNamed(v) <==> behind == {}
  {
    forall p | p in behind ensures !MembersNamed(v) {
      assert p.1 in v.members[p.0];
    }
  }

  lemma {:induction false} AgreesWhen<C>(v: View<C>, stale: set<C>, behind: set<(string, C)>)
    requires MembersAre(v, stale, behind) && "" in v.members
    ensures InverseImage(v) <==> behind == {} && stale == {}
  {
    NamedWhen(v, stale, behind);
    if behind == {} {
      forall c | c in stale ensures !InverseImage(v) {
        assert c !in v.members[v.group[c]];
      }
    }
  }

  /** Over every run, membership implies the attribute if and only if no membership was left behind. */
  lemma {:induction false} NamedExactly<C>(steps: seq<Step<C>>)
    ensures MembersNamed(Exec(steps)) <==> Behind(steps) == {}
  {
    MembersOverRuns(steps);
    NamedWhen(Exec(steps), Stale(steps), Behind(steps));
  }

  /** Over every run, the two sides of the index agree if and only if nothing was left behind on either. */
  lemma {:induction false} AgreesExactly<C>(steps: seq<Step<C>>)
    ensures InverseImage(Exec(steps)) <==> Behind(steps) == {} && Stale(steps) == {}
  {
    MembersOverRuns(steps);
    AgreesWhen(Exec(steps), Stale(steps), Behind(steps));
  }

  /** Over every run: who is in a group are those located there, but for what was left behind on either side. */
  lemma {:induction false} GroupsHold<C>(steps: seq<Step<C>>, g: string, c: C)
    requires g in Names(steps)
    ensures g in Exec(steps).members
    ensures c in Exec(steps).members[g] <==>
            (Located(steps, c) == Some(g) && c !in Stale(steps)) || (g, c) in Behind(steps)
  {
    AttributesAre(steps, c);
    MembersOverRuns(steps);
  }

  /** No connection is connected while an attribute of it names a group. */
  ghost predicate ConnectedOnce<C>(steps: seq<Step<C>>) {
    steps != [] ==>
      var before, step := steps[..|steps| - 1], steps[|steps| - 1];
      ConnectedOnce(before) && (step.Connect? ==> step.c !in Exec(before).group)
  }

  lemma {:induction false} NothingBehind<C>(steps: seq<Step<C>>)
    requires ConnectedOnce(steps)
    ensures Behind(steps) == {}
  {
    if steps != [] {
      NothingBehind(steps[..|steps| - 1]);
    }
  }

  /** Then the groups are disjoint and membership implies the attribute, close_all or not. */
  lemma {:induction false} GroupsDisjoint<C>(steps: seq<Step<C>>)
    requires ConnectedOnce(steps)
    ensures MembersNamed(Exec(steps)) && Disjoint(Exec(steps))
  {
    NothingBehind(steps);
    NamedExactly(steps);
    NamedDisjoint(Exec(steps));
  }

  lemma {:induction false} NothingStale<C>(steps: seq<Step<C>>)
    requires forall i :: 0 <= i < |steps| ==> !steps[i].CloseAll?
    ensures Stale(steps) == {}
  {
    if steps != [] {
      NothingStale(steps[..|steps| - 1]);
    }
  }

  /** And without close_all each group is the inverse image of its name. */
  lemma {:induction false} IndexAgrees<C>(steps: seq<Step<C>>)
    requires ConnectedOnce(steps) && forall i :: 0 <= i < |steps| ==> !steps[i].CloseAll?
    ensures var v := Exec(steps);
            InverseImage(v) && forall g :: g in v.members ==> v.members[g] == set c | c in v.group && v.group[c] == g
  {
    NothingBehind(steps);
    NothingStale(steps);
    AgreesExactly(steps);
  }

  /** A member whose group was closed: it is in no group, but its attribute still names one. */
  lemma {:induction false} ClosedDisagrees<C>(c: C)
    ensures !InverseImage(Exec([Connect(c), CloseAll]))
  {
    var one := [Connect(c)];
    var two := one + [CloseAll];
    assert one[..0] == [] && two[..1] == one;
    assert c in Stale(two);
    AgreesExactly(two);
    assert two == [Connect(c), CloseAll];
  }

  /** A connection that is put into a group before on_connect: it is then in two. */
  lemma {:induction false} ConnectedTwiceOver<C>(c: C)
    ensures var v := Exec([AddGroup("g"), Move(c, "g"), Connect(c)]);
            "g" in v.members && c in v.members["g"] && c in v.members[""] && !MembersNamed(v)
  {
    var one := [AddGroup("g")];
    var two := one + [Move(c, "g")];
    var three := two + [Connect(c)];
    assert one[..0] == [] && two[..1] == one && three[..2] == two;
    assert Exec(one) == Next(Start(), AddGroup("g"));
    assert "g" in Exec(two).members && Exec(two).group[c] == "g" && c in Exec(two).members["g"];
    assert three == [AddGroup("g"), Move(c, "g"), Connect(c)];
  }
}
