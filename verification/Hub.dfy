/** The websocket hub: heap objects that index connections by group and groups by connection. */
module Hub {
  import opened HubViews

  /** What is handed to a connection: a message for the peer, or the wish to close. */
  datatype Frame = Message(binary: bool, content: string) | CloseRequest

  class Connection {
    var attr: GroupAttribute?
    var sent: seq<Frame>

    constructor ()
      ensures attr == null && sent == []
    {
      attr, sent := null, [];
    }

    method Send(f: Frame)
      modifies this`sent
      ensures sent == old(sent) + [f]
    {
      sent := sent + [f];
    }
  }

  /** group_attribute; the weak pointer never expires, since the hub keeps every group. */
  class GroupAttribute {
    var group: Group?

    constructor (g: Group?)
      ensures group == g
    {
      group := g;
    }
  }

  class Group {
    const name: string
    var cons: set<Connection>

    constructor (name: string)
      ensures this.name == name && cons == {}
    {
      this.name, this.cons := name, {};
    }
  }

  class HubObject {
    var groups: map<string, Group>
    /** The connections that have reached the hub. */
    ghost var known: set<Connection>

    ghost predicate Linked()
      reads this, groups.Values, known`attr, set c | c in known && c.attr != null :: c.attr
    {
      && "" in groups
      && (forall g :: g in groups ==> groups[g].name == g && groups[g].cons <= known)
      && (forall c :: c in known && c.attr != null && c.attr.group != null ==>
            c.attr.group.name in groups && groups[c.attr.group.name] == c.attr.group)
      && (forall c, d :: c in known && d in known && c != d && c.attr != null ==> c.attr != d.attr)
    }

    ghost function Index(): View<Connection>
      requires Linked()
      reads this, groups.Values, known`attr, set c | c in known && c.attr != null :: c.attr
    {
      View(map g | g in groups :: groups[g].cons,
           map c | c in known && c.attr != null && c.attr.group != null :: c.attr.group.name)
    }

    constructor ()
      ensures Linked() && Index() == Start() && MembersNamed(Index()) && known == {}
      ensures fresh(groups.Values)
    {
      var g := new Group("");
      groups := map["" := g];
      known := {};
    }

    /**
     * Any connection. If its attribute named another group it stays there as well, and the invariant is lost.
     */
    method OnConnect(con: Connection)
      requires Linked()
      modifies this`known, con`attr, groups.Values
      ensures Linked() && Index() == Connected(old(Index()), con) && known == old(known) + {con}
      ensures MembersNamed(old(Index())) ==>
                (MembersNamed(Index()) <==> InNoOther(old(Index()), con, ""))
    {
      ConnectKeepsExactly(Index(), con);
      Register(con);
    }

    method Register(con: Connection)
      requires Linked()
      modifies this`known, con`attr, groups.Values
      ensures Linked() && Index() == Connected(old(Index()), con) && known == old(known) + {con}
    {
      Reconnected(Index(), con);
      Renew(con);
      Enter(con, "");
    }

    /** A connection the hub knows, or one without an attribute. */
    ghost predicate Reachable(con: Connection)
      reads this`known, con`attr
    {
      con in known || con.attr == null
    }

    /** The handler runs before the connection leaves its group; it does not call back into the hub. */
    method OnDisconnect(con: Connection)
      requires Linked() && Reachable(con)
      modifies con.attr, groups.Values
      ensures Linked() && Index() == Disconnected(old(Index()), con)
      ensures MembersNamed(old(Index())) ==> MembersNamed(Index())
    {
      ghost var before := Index();
      var attr := con.attr;
      if attr != null {
        var group := attr.group;
        if group != null {
          Leave(con);
          Forget(con);
        }
      }
      assert Index().group == before.group - {con};
      KeepsNamed(before, HubViews.Step.Disconnect(con));
    }

    /** attr->group.reset() */
    method Forget(con: Connection)
      requires Linked() && con in known && con.attr != null
      modifies con.attr
      ensures Linked() && Index() == old(View(Index().members, Index().group - {con}))
    {
      ghost var before := Index();
      con.attr.group := null;
      assert Linked();
      assert Index().members == before.members;
      assert Index().group == before.group - {con};
    }

    /** The connection gets a new attribute that names no group. */
    method Renew(con: Connection)
      requires Linked()
      modifies this`known, con`attr
      ensures Linked() && Index() == old(View(Index().members, Index().group - {con})) && known == old(known) + {con}
      ensures con.attr != null && fresh(con.attr) && con.attr.group == null
    {
      ghost var before := Index();
      con.attr := new GroupAttribute(null);
      known := known + {con};
      assert Linked();
      assert Index().members == before.members;
      assert Index().group == before.group - {con};
    }

    /** cons.erase in the group the attribute names, if it names one. */
    method Leave(con: Connection)
      requires Linked() && con in known && con.attr != null
      modifies groups.Values
      ensures Linked() && Index() == old(View(Left(Index(), con), Index().group))
    {
      ghost var before := Index();
      var g := con.attr.group;
      if g != null {
        g.cons := g.cons - {con};
      }
      assert Linked();
      assert Index().members == Left(before, con);
      assert Index().group == before.group;
    }

    /** The attribute names the group and the group takes the connection in. */
    method Enter(con: Connection, gname: string)
      requires Linked() && con in known && con.attr != null && gname in groups
      modifies con.attr, groups.Values
      ensures Linked()
      ensures Index() == old(View(Added(Index().members, gname, con), Index().group[con := gname]))
    {
      ghost var before := Index();
      var g := groups[gname];
      con.attr.group := g;
      g.cons := g.cons + {con};
      assert Linked();
      assert Index().members == Added(before.members, gname, con);
      assert Index().group == before.group[con := gname];
    }

    method SetConnectionGroup(con: Connection, gname: string)
      requires Linked() && Reachable(con)
      modifies this`known, con`attr, con.attr, groups.Values
      ensures Linked() && Index() == Moved(old(Index()), con, gname)
      ensures MembersNamed(old(Index())) ==> MembersNamed(Index())
    {
      ghost var before := Index();
      KeepsNamed(before, HubViews.Step.Move(con, gname));
      if gname !in groups {
        return;
      }
      if con.attr == null {
        Renew(con);
        assert Index().group == before.group;
      }
      Leave(con);
      Enter(con, gname);
    }

    method GetConnectionGroup(con: Connection) returns (name: string)
      requires Linked() && Reachable(con)
      ensures name == if con in Index().group then Index().group[con] else ""
    {
      if con.attr != null && con.attr.group != null {
        return con.attr.group.name;
      }
      return "";
    }

    method AddGroup(name: string)
      requires Linked()
      modifies this`groups
      ensures Linked() && Index() == GroupAdded(old(Index()), name)
      ensures MembersNamed(old(Index())) ==> MembersNamed(Index())
    {
      ghost var before := Index();
      if name !in groups {
        var g := new Group(name);
        groups := groups[name := g];
      }
      assert Linked();
      assert Index().members == GroupAdded(before, name).members;
      assert Index().group == GroupAdded(before, name).group;
      KeepsNamed(before, HubViews.Step.AddGroup(name));
    }

    method GetGroupConnections(gname: string) returns (cons: set<Connection>)
      requires Linked()
      ensures cons == if gname in Index().members then Index().members[gname] else {}
    {
      cons := if gname in groups then groups[gname].cons else {};
    }

    /** One frame to each connection of a set, in some order. */
    method SendAll(cons: set<Connection>, f: Frame)
      requires Linked() && cons <= known
      modifies known`sent
      ensures Linked() && Index() == old(Index()) && known == old(known)
      ensures forall c :: c in known ==> c.sent == old(c.sent) + if c in cons then [f] else []
    {
      var todo := cons;
      while todo != {}
        invariant todo <= cons && Linked() && Index() == old(Index()) && known == old(known)
        invariant forall c :: c in known ==> c.sent == old(c.sent) + if c in cons - todo then [f] else []
        decreases |todo|
      {
        var c :| c in todo;
        c.Send(f);
        todo := todo - {c};
      }
    }

    /** Every member of the group is sent the message once, and nobody else; a group that does not exist has no members. */
    method Broadcast(gname: string, binary: bool, content: string)
      requires Linked()
      modifies known`sent
      ensures Linked() && Index() == old(Index())
      ensures forall c :: c in known ==>
                c.sent == old(c.sent)
                  + if gname in Index().members && c in Index().members[gname] then [Message(binary, content)] else []
    {
      var cons := if gname in groups then groups[gname].cons else {};
      SendAll(cons, Message(binary, content));
    }

    method CloseGroup(gname: string)
      requires Linked()
      modifies known`sent
      ensures Linked() && Index() == old(Index())
      ensures forall c :: c in known ==>
                c.sent == old(c.sent)
                  + if gname in Index().members && c in Index().members[gname] then [CloseRequest] else []
    {
      var cons := GetGroupConnections(gname);
      SendAll(cons, CloseRequest);
    }

    method EmptyGroup(g: string)
      requires Linked() && g in groups
      modifies groups[g]
      ensures Linked() && Index() == old(View(Index().members[g := {}], Index().group))
    {
      ghost var before := Index();
      groups[g].cons := {};
      assert Linked();
      assert Index().members == before.members[g := {}];
      assert Index().group == before.group;
    }

    /** Each connection has been asked to close once for every group in `done` it was in. */
    ghost predicate Asked(before: View<Connection>, was: map<Connection, seq<Frame>>, done: set<string>)
      reads this`known, known`sent
    {
      && was.Keys == known
      && forall c :: c in known ==> c.sent == was[c] + Requests(Count(before, done, c))
    }

    /** The groups in `done` have been emptied too. */
    ghost predicate ClosedSoFar(before: View<Connection>, was: map<Connection, seq<Frame>>, done: set<string>)
      reads this, groups.Values, known, set c | c in known && c.attr != null :: c.attr
    {
      Linked() && Index() == Closed(before, done) && Asked(before, was, done)
    }

    method AskMembers(g: string, ghost before: View<Connection>, ghost was: map<Connection, seq<Frame>>, ghost done: set<string>)
      requires Linked() && Asked(before, was, done) && g in groups && g !in done
      requires g in before.members && groups[g].cons == before.members[g]
      modifies known`sent
      ensures Linked() && Index() == old(Index()) && Asked(before, was, done + {g})
    {
      SendAll(groups[g].cons, CloseRequest);
      forall c | c in known ensures c.sent == was[c] + Requests(Count(before, done + {g}, c)) {
        OneMoreAsked(before, done, g, c, was[c]);
      }
    }

    method CloseMembers(g: string, ghost before: View<Connection>, ghost was: map<Connection, seq<Frame>>, ghost done: set<string>)
      requires ClosedSoFar(before, was, done) && g in groups && g !in done
      modifies known`sent, groups[g]
      ensures ClosedSoFar(before, was, done + {g})
    {
      assert g in Index().members;
      ClosedOneMore(before, done, g);
      AskMembers(g, before, was, done);
      EmptyGroup(g);
    }

    /** The loop over the groups. */
    method CloseGroups(ghost before: View<Connection>, ghost was: map<Connection, seq<Frame>>)
      requires ClosedSoFar(before, was, {})
      modifies known`sent, groups.Values
      ensures ClosedSoFar(before, was, groups.Keys)
    {
      ghost var done := {};
      var todo := groups.Keys;
      ghost var all := todo;
      while todo != {}
        invariant Split(all, todo, done) && ClosedSoFar(before, was, done)
        decreases |todo|
      {
        var g :| g in todo;
        SplitMoves(all, todo, done, g);
        CloseMembers(g, before, was, done);
        todo, done := todo - {g}, done + {g};
      }
      assert done == all;
    }

    /** Each connection is asked to close once for every group it is in, and the groups are emptied; the attributes stay. */
    method CloseAll()
      requires Linked()
      modifies known`sent, groups.Values
      ensures Linked() && Index() == AllClosed(old(Index()))
      ensures MembersNamed(old(Index())) ==> MembersNamed(Index())
      ensures forall c :: c in known ==>
                c.sent == old(c.sent) + Requests(Count(old(Index()), groups.Keys, c))
    {
      ghost var before := Index();
      ghost var was := map c | c in known :: c.sent;
      ClosedEnds(before);
      KeepsNamed(before, HubViews.Step.CloseAll);
      CloseGroups(before, was);
    }
  }

  /** What connects is first taken out, if its attribute named a group. */
  lemma {:induction false} Reconnected<C>(v: View<C>, c: C)
    requires "" in v.members
    ensures View(Added(v.members, "", c), (v.group - {c})[c := ""]) == Connected(v, c)
  {
    assert (v.group - {c})[c := ""] == v.group[c := ""];
  }

  lemma {:induction false} KeepsNamed<C>(v: View<C>, step: HubViews.Step<C>)
    requires "" in v.members && (step.Connect? ==> step.c !in v.group)
    ensures MembersNamed(v) ==> MembersNamed(Next(v, step))
  {
    if MembersNamed(v) {
      StepKeeps(v, step);
    }
  }

  /** The view with some groups emptied. */
  ghost function Closed<C>(v: View<C>, done: set<string>): View<C> {
    v.(members := map g | g in v.members :: if g in done then {} else v.members[g])
  }

  /** The groups of a selection that have `c` as a member. */
  ghost function GroupsOf<C>(v: View<C>, gs: set<string>, c: C): set<string> {
    set g | g in gs && g in v.members && c in v.members[g]
  }

  ghost function Count<C>(v: View<C>, gs: set<string>, c: C): nat {
    |GroupsOf(v, gs, c)|
  }

  ghost function Requests(n: nat): seq<Frame> {
    seq(n, i => CloseRequest)
  }

  /** In an index that is in order no connection is asked more than once. */
  lemma {:induction false} AskedOnce<C>(v: View<C>, c: C)
    requires MembersNamed(v)
    ensures Count(v, v.members.Keys, c) == if exists g :: g in v.members && c in v.members[g] then 1 else 0
  {
    var gs := GroupsOf(v, v.members.Keys, c);
    if g :| g in v.members && c in v.members[g] {
      assert forall h :: h in gs ==> h == v.group[c] == g;
      assert gs == {g};
    } else {
      assert gs == {};
    }
  }

  lemma {:induction false} OneMoreAsked<C>(v: View<C>, done: set<string>, g: string, c: C, was: seq<Frame>)
    requires g in v.members && g !in done
    ensures was + Requests(Count(v, done, c)) + (if c in v.members[g] then [CloseRequest] else [])
            == was + Requests(Count(v, done + {g}, c))
  {
    var n := Count(v, done, c);
    if c in v.members[g] {
      assert GroupsOf(v, done + {g}, c) == GroupsOf(v, done, c) + {g};
      assert Requests(n) + [CloseRequest] == Requests(n + 1);
    } else {
      assert GroupsOf(v, done + {g}, c) == GroupsOf(v, done, c);
      assert was + Requests(n) + [] == was + Requests(n);
    }
  }

  ghost predicate Split<T>(all: set<T>, todo: set<T>, done: set<T>) {
    todo !! done && todo + done == all
  }

  lemma SplitMoves<T>(all: set<T>, todo: set<T>, done: set<T>, x: T)
    requires Split(all, todo, done) && x in todo
    ensures Split(all, todo - {x}, done + {x}) && x in all && x !in done
  {
  }

  lemma {:induction false} ClosedEnds<C>(v: View<C>)
    ensures Closed(v, {}) == v
    ensures Closed(v, v.members.Keys) == AllClosed(v)
    ensures forall c, s: seq<Frame> :: s + Requests(Count(v, {}, c)) == s
  {
    assert Closed(v, {}).members == v.members;
    assert Closed(v, v.members.Keys).members == AllClosed(v).members;
    forall c, s: seq<Frame> ensures s + Requests(Count(v, {}, c)) == s {
      assert GroupsOf(v, {}, c) == {};
    }
  }

  lemma {:induction false} ClosedOneMore<C>(v: View<C>, done: set<string>, g: string)
    requires g in v.members && g !in done
    ensures var w := Closed(v, done);
            w.members[g] == v.members[g] && View(w.members[g := {}], w.group) == Closed(v, done + {g})
  {
    assert Closed(v, done).members[g := {}] == Closed(v, done + {g}).members;
  }
}
