/** The chat server's groups (server_deal.c over the tables of MYSQL.c): creating, joining,
    leaving, deleting, promoting, inviting and removing, with every query succeeding and group
    ids never used twice. */
module Groups {

  /** A row of `g_meber`. */
  datatype Member = Member(group: nat, account: int, flag: nat)

  datatype Event =
    | Created(group: nat, actor: int)
    | Inserted(group: nat, account: int, actor: int)
    | Granted(group: nat, account: int, actor: int)
    | Removed(group: nat, account: int, actor: int)
    | Dropped(group: nat, actor: int)

  /** The table `groups` (id and owner), the table `g_meber`, the next id MySQL will hand out,
      and what has happened so far. */
  datatype Db = Db(groups: map<nat, int>, members: seq<Member>, nextId: nat, log: seq<Event>)

  const EMPTY := Db(map[], [], 1, [])

  datatype Request =
    | Create(actor: int)
    | Join(actor: int, group: nat)
    | Quit(actor: int, group: nat)
    | Delete(actor: int, group: nat)
    | Promote(actor: int, group: nat, account: int)
    | Invite(actor: int, group: nat, account: int)
    | Kick(actor: int, group: nat, account: int)

  // ---------- Queries ----------

  predicate At(r: Member, g: nat, m: int) {
    r.group == g && r.account == m
  }

  /** `MYSQL_find_group_member` */
  predicate IsMember(ms: seq<Member>, g: nat, m: int) {
    exists i :: 0 <= i < |ms| && At(ms[i], g, m)
  }

  /** `MYSQL_find_group_vip` */
  predicate IsVip(ms: seq<Member>, g: nat, m: int) {
    exists i :: 0 <= i < |ms| && At(ms[i], g, m) && ms[i].flag != 0
  }

  /** `MYSQL_find_gowner` */
  predicate IsOwner(groups: map<nat, int>, g: nat, m: int) {
    g in groups && groups[g] == m
  }

  // ---------- Statements ----------

  /** The rows that are not account `m`'s in group `g`. */
  function WithoutMember(ms: seq<Member>, g: nat, m: int): seq<Member> {
    if ms == [] then []
    else if At(ms[|ms| - 1], g, m) then WithoutMember(ms[..|ms| - 1], g, m)
    else WithoutMember(ms[..|ms| - 1], g, m) + [ms[|ms| - 1]]
  }

  /** The rows of other groups. */
  function WithoutGroup(ms: seq<Member>, g: nat): seq<Member> {
    if ms == [] then []
    else if ms[|ms| - 1].group == g then WithoutGroup(ms[..|ms| - 1], g)
    else WithoutGroup(ms[..|ms| - 1], g) + [ms[|ms| - 1]]
  }

  /** `update g_meber set member_flag = 2` */
  function WithFlagTwo(ms: seq<Member>, g: nat, m: int): (r: seq<Member>)
    ensures |r| == |ms|
  {
    seq(|ms|, i requires 0 <= i < |ms| => if At(ms[i], g, m) then ms[i].(flag := 2) else ms[i])
  }

  /** What a request does to the tables. */
  function Serve(db: Db, q: Request): Db {
    match q
    case Create(actor) =>
      Db(db.groups[db.nextId := actor], db.members + [Member(db.nextId, actor, 1)], db.nextId + 1,
         db.log + [Created(db.nextId, actor)])
    case Join(actor, g) =>
      if g in db.groups && !IsMember(db.members, g, actor)
      then db.(members := db.members + [Member(g, actor, 0)], log := db.log + [Inserted(g, actor, actor)])
      else db
    case Quit(actor, g) =>
      if IsMember(db.members, g, actor)
      then db.(members := WithoutMember(db.members, g, actor), log := db.log + [Removed(g, actor, actor)])
      else db
    case Delete(actor, g) =>
      if IsOwner(db.groups, g, actor)
      then db.(groups := db.groups - {g}, members := WithoutGroup(db.members, g), log := db.log + [Dropped(g, actor)])
      else db
    case Promote(actor, g, m) =>
      if IsOwner(db.groups, g, actor) && IsMember(db.members, g, m)
      then db.(members := WithFlagTwo(db.members, g, m), log := db.log + [Granted(g, m, actor)])
      else db
    case Invite(actor, g, m) =>
      if IsMember(db.members, g, actor) && !IsMember(db.members, g, m)
      then db.(members := db.members + [Member(g, m, 0)], log := db.log + [Inserted(g, m, actor)])
      else db
    case Kick(actor, g, m) =>
      if IsVip(db.members, g, actor)
      then db.(members := WithoutMember(db.members, g, m), log := db.log + [Removed(g, m, actor)])
      else db
  }

  function Run(db: Db, qs: seq<Request>): Db {
    if qs == [] then db else Serve(Run(db, qs[..|qs| - 1]), qs[|qs| - 1])
  }

  // ---------- What the history says ----------

  /** The flag account `m` carries in group `g`, or that it has no row. */
  datatype Status = Absent | Present(flag: nat)

  /** What a single event says about account `m` in group `g`, given what was said before. */
  function After(e: Event, g: nat, m: int, before: Status): Status {
    match e
    case Created(h, actor) => if h == g && actor == m then Present(1) else before
    case Inserted(h, a, _) => if h == g && a == m then Present(0) else before
    case Granted(h, a, _) => if h == g && a == m then Present(2) else before
    case Removed(h, a, _) => if h == g && a == m then Absent else before
    case Dropped(h, _) => if h == g then Absent else before
  }

  function History(log: seq<Event>, g: nat, m: int): Status {
    if log == [] then Absent else After(log[|log| - 1], g, m, History(log[..|log| - 1], g, m))
  }

  /** Who owns group `g`, if it exists. */
  datatype Holder = Nobody | Owner(account: int)

  function OwnerBy(log: seq<Event>, g: nat): Holder {
    if log == [] then Nobody
    else
      match log[|log| - 1]
      case Created(h, actor) => if h == g then Owner(actor) else OwnerBy(log[..|log| - 1], g)
      case Dropped(h, _) => if h == g then Nobody else OwnerBy(log[..|log| - 1], g)
      case _ => OwnerBy(log[..|log| - 1], g)
  }

  /** Whether the event was in order after what had happened before: groups are created under
      new ids, rows are inserted for accounts that have none, by themselves or by a member, in
      groups that exist; members are promoted by the owner; rows are removed by the account
      itself or by somebody who carried a flag then; groups are dropped by the owner. */
  ghost predicate Allowed(log: seq<Event>, e: Event) {
    match e
    case Created(g, _) => OwnerBy(log, g) == Nobody && forall f :: f in log && f.Created? ==> f.group != g
    case Inserted(g, m, actor) =>
      && OwnerBy(log, g) != Nobody && History(log, g, m) == Absent
      && (actor == m || History(log, g, actor).Present?)
    case Granted(g, m, actor) => OwnerBy(log, g) == Owner(actor) && History(log, g, m).Present?
    case Removed(g, m, actor) =>
      History(log, g, actor).Present? && (actor == m || History(log, g, actor).flag != 0)
    case Dropped(g, actor) => OwnerBy(log, g) == Owner(actor)
  }

  /** What the member table says. */
  function Row(ms: seq<Member>, g: nat, m: int): Status {
    if ms == [] then Absent
    else if At(ms[|ms| - 1], g, m) then Present(ms[|ms| - 1].flag)
    else Row(ms[..|ms| - 1], g, m)
  }

  ghost predicate NoPairTwice(ms: seq<Member>) {
    forall i, j :: 0 <= i < j < |ms| ==> !At(ms[i], ms[j].group, ms[j].account)
  }

  /** Some event put `actor` in a position to remove others from group `g`: it made `actor` the
      creator, or promoted `actor`. */
  ghost predicate Empowers(log: seq<Event>, g: nat, actor: int) {
    exists i :: 0 <= i < |log| &&
      (log[i] == Created(g, actor) || (log[i].Granted? && log[i].group == g && log[i].account == actor))
  }

  // ---------- The invariant ----------

  function Holding(groups: map<nat, int>, g: nat): Holder {
    if g in groups then Owner(groups[g]) else Nobody
  }

  /** The table of groups is what the history makes it. */
  ghost predicate GroupsMirror(db: Db) {
    forall g :: Holding(db.groups, g) == OwnerBy(db.log, g)
  }

  /** The member table is what the history makes it. */
  ghost predicate Mirrors(db: Db) {
    forall g, m :: Row(db.members, g, m) == History(db.log, g, m)
  }

  ghost predicate RowsHaveGroups(db: Db) {
    forall r :: r in db.members ==> r.group in db.groups
  }

  /** The creation of every group is on record, under an id used once. */
  ghost predicate CreatorsOwn(db: Db) {
    && (forall g :: g in db.groups ==> Created(g, db.groups[g]) in db.log)
    && (forall e :: e in db.log && e.Created? ==> e.group < db.nextId)
    && (forall e, f :: e in db.log && f in db.log && e.Created? && f.Created? && e.group == f.group ==> e == f)
  }

  /** Only a group's creator ever promoted anybody in it. */
  ghost predicate OnlyCreatorsGrant(db: Db) {
    forall e :: e in db.log && e.Granted? ==> Created(e.group, e.actor) in db.log
  }

  /** Every event was in order when it happened. */
  ghost predicate InOrder(log: seq<Event>) {
    forall k :: 0 <= k < |log| ==> Allowed(log[..k], log[k])
  }

  ghost predicate Inv(db: Db) {
    && NoPairTwice(db.members) && Mirrors(db) && GroupsMirror(db) && RowsHaveGroups(db)
    && CreatorsOwn(db) && OnlyCreatorsGrant(db) && InOrder(db.log)
  }

  // ---------- Rows ----------

  lemma {:induction false} RowIsMember(ms: seq<Member>, g: nat, m: int)
    ensures Row(ms, g, m).Present? <==> IsMember(ms, g, m)
    ensures Row(ms, g, m).Present? ==> Member(g, m, Row(ms, g, m).flag) in ms
  {
    if ms != [] {
      var init, last := ms[..|ms| - 1], ms[|ms| - 1];
      RowIsMember(init, g, m);
      assert IsMember(init, g, m) ==> IsMember(ms, g, m) by {
        if i :| 0 <= i < |init| && At(init[i], g, m) { assert At(ms[i], g, m); }
      }
      assert IsMember(ms, g, m) && !At(last, g, m) ==> IsMember(init, g, m) by {
        if i :| 0 <= i < |ms| && At(ms[i], g, m) { assert i < |init| ==> At(init[i], g, m); }
      }
    }
  }

  /** Without duplicates, the row found is the only one. */
  lemma {:induction false} RowIsOnly(ms: seq<Member>, i: nat)
    requires NoPairTwice(ms) && i < |ms|
    ensures Row(ms, ms[i].group, ms[i].account) == Present(ms[i].flag)
  {
    var last := |ms| - 1;
    if i < last {
      assert !At(ms[i], ms[last].group, ms[last].account);
      RowIsOnly(ms[..last], i);
    }
  }

  lemma RowAppend(ms: seq<Member>, r: Member, g: nat, m: int)
    ensures Row(ms + [r], g, m) == if At(r, g, m) then Present(r.flag) else Row(ms, g, m)
  {
    assert (ms + [r])[..|ms|] == ms;
  }

  lemma HistoryAppend(log: seq<Event>, e: Event, g: nat, m: int)
    ensures History(log + [e], g, m) == After(e, g, m, History(log, g, m))
  {
    assert (log + [e])[..|log|] == log;
  }

  lemma {:induction false} RowWithoutMember(ms: seq<Member>, h: nat, a: int, g: nat, m: int)
    ensures Row(WithoutMember(ms, h, a), g, m) == if g == h && m == a then Absent else Row(ms, g, m)
  {
    if ms != [] {
      RowWithoutMember(ms[..|ms| - 1], h, a, g, m);
      RowAppend(WithoutMember(ms[..|ms| - 1], h, a), ms[|ms| - 1], g, m);
    }
  }

  lemma {:induction false} RowWithoutGroup(ms: seq<Member>, h: nat, g: nat, m: int)
    ensures Row(WithoutGroup(ms, h), g, m) == if g == h then Absent else Row(ms, g, m)
  {
    if ms != [] {
      RowWithoutGroup(ms[..|ms| - 1], h, g, m);
      RowAppend(WithoutGroup(ms[..|ms| - 1], h), ms[|ms| - 1], g, m);
    }
  }

  lemma {:induction false} RowWithFlagTwo(ms: seq<Member>, h: nat, a: int, g: nat, m: int)
    ensures Row(WithFlagTwo(ms, h, a), g, m)
         == if g == h && m == a && Row(ms, g, m).Present? then Present(2) else Row(ms, g, m)
  {
    if ms != [] {
      var init := ms[..|ms| - 1];
      RowWithFlagTwo(init, h, a, g, m);
      assert WithFlagTwo(ms, h, a)[..|ms| - 1] == WithFlagTwo(init, h, a);
    }
  }

  /** Deleting keeps the remaining rows as they were, in order. */
  lemma {:induction false} WithoutMemberKeeps(ms: seq<Member>, g: nat, m: int)
    ensures forall r :: r in WithoutMember(ms, g, m) <==> r in ms && !At(r, g, m)
    ensures NoPairTwice(ms) ==> NoPairTwice(WithoutMember(ms, g, m))
  {
    if ms != [] {
      var init, last := ms[..|ms| - 1], ms[|ms| - 1];
      WithoutMemberKeeps(init, g, m);
      assert ms == init + [last];
      KeepsApart(init, last, WithoutMember(init, g, m));
    }
  }

  lemma {:induction false} WithoutGroupKeeps(ms: seq<Member>, g: nat)
    ensures forall r :: r in WithoutGroup(ms, g) <==> r in ms && r.group != g
    ensures NoPairTwice(ms) ==> NoPairTwice(WithoutGroup(ms, g))
  {
    if ms != [] {
      var init, last := ms[..|ms| - 1], ms[|ms| - 1];
      WithoutGroupKeeps(init, g);
      assert ms == init + [last];
      KeepsApart(init, last, WithoutGroup(init, g));
    }
  }

  lemma KeepsApart(init: seq<Member>, last: Member, kept: seq<Member>)
    requires forall r :: r in kept ==> r in init
    ensures NoPairTwice(init + [last]) ==> NoPairTwice(init)
    ensures NoPairTwice(init + [last]) && NoPairTwice(kept) ==> NoPairTwice(kept + [last])
  {
    if NoPairTwice(init + [last]) {
      forall i, j | 0 <= i < j < |init| ensures !At(init[i], init[j].group, init[j].account) {
        assert !At((init + [last])[i], (init + [last])[j].group, (init + [last])[j].account);
      }
      forall r | r in init ensures !At(r, last.group, last.account) {
        var i :| 0 <= i < |init| && init[i] == r;
        assert !At((init + [last])[i], (init + [last])[|init|].group, (init + [last])[|init|].account);
      }
    }
  }

  lemma AppendApart(ms: seq<Member>, r: Member)
    requires NoPairTwice(ms) && !IsMember(ms, r.group, r.account)
    ensures NoPairTwice(ms + [r])
  {
  }

  // ---------- Every request keeps the invariant ----------

  lemma RowsStep(db: Db, q: Request)
    requires Inv(db)
    ensures NoPairTwice(Serve(db, q).members) && RowsHaveGroups(Serve(db, q))
  {
    match q
    case Create(actor) =>
      forall r | r in db.members ensures r.group < db.nextId {
        assert Created(r.group, db.groups[r.group]) in db.log;
      }
      AppendApart(db.members, Member(db.nextId, actor, 1));
    case Join(actor, g) =>
      if g in db.groups && !IsMember(db.members, g, actor) { AppendApart(db.members, Member(g, actor, 0)); }
    case Quit(actor, g) => WithoutMemberKeeps(db.members, g, actor);
    case Delete(actor, g) => WithoutGroupKeeps(db.members, g);
    case Promote(actor, g, m) =>
    case Invite(actor, g, m) =>
      if IsMember(db.members, g, actor) && !IsMember(db.members, g, m) { AppendApart(db.members, Member(g, m, 0)); }
    case Kick(actor, g, m) => WithoutMemberKeeps(db.members, g, m);
  }

  /** A row inserted or a group created is what its event says. */
  lemma InsertMirrors(db: Db, r: Member, e: Event, g: nat, m: int)
    requires Row(db.members, g, m) == History(db.log, g, m)
    requires forall s :: After(e, g, m, s) == if At(r, g, m) then Present(r.flag) else s
    ensures Row(db.members + [r], g, m) == History(db.log + [e], g, m)
  {
    RowAppend(db.members, r, g, m);
    HistoryAppend(db.log, e, g, m);
  }

  lemma RemovalMirrors(db: Db, h: nat, a: int, actor: int, g: nat, m: int)
    requires Row(db.members, g, m) == History(db.log, g, m)
    ensures Row(WithoutMember(db.members, h, a), g, m) == History(db.log + [Removed(h, a, actor)], g, m)
  {
    RowWithoutMember(db.members, h, a, g, m);
    HistoryAppend(db.log, Removed(h, a, actor), g, m);
  }

  lemma DropMirrors(db: Db, h: nat, actor: int, g: nat, m: int)
    requires Row(db.members, g, m) == History(db.log, g, m)
    ensures Row(WithoutGroup(db.members, h), g, m) == History(db.log + [Dropped(h, actor)], g, m)
  {
    RowWithoutGroup(db.members, h, g, m);
    HistoryAppend(db.log, Dropped(h, actor), g, m);
  }

  lemma GrantMirrors(db: Db, h: nat, a: int, actor: int, g: nat, m: int)
    requires Row(db.members, g, m) == History(db.log, g, m) && IsMember(db.members, h, a)
    ensures Row(WithFlagTwo(db.members, h, a), g, m) == History(db.log + [Granted(h, a, actor)], g, m)
  {
    RowWithFlagTwo(db.members, h, a, g, m);
    RowIsMember(db.members, h, a);
    HistoryAppend(db.log, Granted(h, a, actor), g, m);
  }

  /** What a statement does to the row of `g` and `m` is what its event says. */
  lemma MirrorsAt(db: Db, q: Request, g: nat, m: int)
    requires Row(db.members, g, m) == History(db.log, g, m)
    ensures Row(Serve(db, q).members, g, m) == History(Serve(db, q).log, g, m)
  {
    match q
    case Create(actor) => InsertMirrors(db, Member(db.nextId, actor, 1), Created(db.nextId, actor), g, m);
    case Join(actor, h) => InsertMirrors(db, Member(h, actor, 0), Inserted(h, actor, actor), g, m);
    case Quit(actor, h) => RemovalMirrors(db, h, actor, actor, g, m);
    case Delete(actor, h) => DropMirrors(db, h, actor, g, m);
    case Promote(actor, h, a) =>
      if IsMember(db.members, h, a) { GrantMirrors(db, h, a, actor, g, m); }
    case Invite(actor, h, a) => InsertMirrors(db, Member(h, a, 0), Inserted(h, a, actor), g, m);
    case Kick(actor, h, a) => RemovalMirrors(db, h, a, actor, g, m);
  }

  lemma MirrorsStep(db: Db, q: Request)
    requires Inv(db)
    ensures Mirrors(Serve(db, q))
  {
    forall g, m ensures Row(Serve(db, q).members, g, m) == History(Serve(db, q).log, g, m) {
      MirrorsAt(db, q, g, m);
    }
  }

  lemma CreatorsCreate(db: Db, actor: int)
    requires CreatorsOwn(db)
    ensures CreatorsOwn(Serve(db, Create(actor)))
  {
    var t, e := Serve(db, Create(actor)), Created(db.nextId, actor);
    forall f | f in t.log && f.Created? && f.group == db.nextId ensures f == e {
      assert f == e || f in db.log;
    }
    forall g | g in t.groups ensures Created(g, t.groups[g]) in t.log {
      assert g == db.nextId || Created(g, db.groups[g]) in db.log;
    }
  }

  lemma CreatorsStep(db: Db, q: Request)
    requires Inv(db)
    ensures CreatorsOwn(Serve(db, q))
  {
    if q.Create? {
      CreatorsCreate(db, q.actor);
    } else {
      var t := Serve(db, q);
      assert forall f | f in t.log && f.Created? :: f in db.log;
    }
  }

  lemma GrantsStep(db: Db, q: Request)
    requires Inv(db)
    ensures OnlyCreatorsGrant(Serve(db, q))
  {
    var log' := Serve(db, q).log;
    forall e | e in log' && e.Granted? ensures Created(e.group, e.actor) in log' {
      if e !in db.log {
        assert q.Promote? && e == Granted(q.group, q.account, q.actor);
      }
    }
  }

  /** A flag other than 0 comes from having created the group or from having been promoted. */
  lemma {:induction false} FlagsComeFromEvents(log: seq<Event>, g: nat, m: int)
    requires History(log, g, m).Present? && History(log, g, m).flag != 0
    ensures Empowers(log, g, m)
  {
    var last := |log| - 1;
    var e, before := log[last], History(log[..last], g, m);
    if After(e, g, m, before) == before {
      FlagsComeFromEvents(log[..last], g, m);
      var i :| 0 <= i < last &&
        (log[i] == Created(g, m) || (log[i].Granted? && log[i].group == g && log[i].account == m));
    }
  }

  lemma OwnerAt(db: Db, q: Request, g: nat)
    requires Holding(db.groups, g) == OwnerBy(db.log, g)
    ensures Holding(Serve(db, q).groups, g) == OwnerBy(Serve(db, q).log, g)
  {
    var t := Serve(db, q);
    if |t.log| > |db.log| {
      assert t.log[..|t.log| - 1] == db.log;
      assert q.Create? || q.Delete? || t.groups == db.groups;
    }
  }

  lemma GroupsMirrorStep(db: Db, q: Request)
    requires Inv(db)
    ensures GroupsMirror(Serve(db, q))
  {
    forall g ensures Holding(Serve(db, q).groups, g) == OwnerBy(Serve(db, q).log, g) {
      OwnerAt(db, q, g);
    }
  }

  /** A request has an effect only if its event is in order. */
  lemma EffectAllowed(db: Db, q: Request)
    requires Inv(db) && |Serve(db, q).log| > |db.log|
    ensures Allowed(db.log, Serve(db, q).log[|db.log|])
  {
    match q
    case Create(_) =>
      assert Holding(db.groups, db.nextId) == OwnerBy(db.log, db.nextId);
      assert db.nextId !in db.groups;
    case Join(actor, g) =>
      RowIsMember(db.members, g, actor);
      assert Holding(db.groups, g) == OwnerBy(db.log, g);
    case Quit(actor, g) => RowIsMember(db.members, g, actor);
    case Delete(_, g) => assert Holding(db.groups, g) == OwnerBy(db.log, g);
    case Promote(_, g, m) =>
      RowIsMember(db.members, g, m);
      assert Holding(db.groups, g) == OwnerBy(db.log, g);
    case Invite(actor, g, m) =>
      RowIsMember(db.members, g, actor);
      RowIsMember(db.members, g, m);
      assert Holding(db.groups, g) == OwnerBy(db.log, g);
    case Kick(actor, g, _) =>
      var i :| 0 <= i < |db.members| && At(db.members[i], g, actor) && db.members[i].flag != 0;
      RowIsOnly(db.members, i);
  }

  lemma InOrderStep(db: Db, q: Request)
    requires Inv(db)
    ensures InOrder(Serve(db, q).log)
  {
    var log, log' := db.log, Serve(db, q).log;
    if |log'| > |log| {
      EffectAllowed(db, q);
      forall k | 0 <= k < |log'| ensures Allowed(log'[..k], log'[k]) {
        assert log'[..k] == log[..k];
      }
    }
  }

  lemma {:induction false} RunInv(qs: seq<Request>)
    ensures Inv(Run(EMPTY, qs))
  {
    if qs != [] {
      var db, q := Run(EMPTY, qs[..|qs| - 1]), qs[|qs| - 1];
      RunInv(qs[..|qs| - 1]);
      RowsStep(db, q);
      MirrorsStep(db, q);
      CreatorsStep(db, q);
      GrantsStep(db, q);
      GroupsMirrorStep(db, q);
      InOrderStep(db, q);
    }
  }

  // ---------- What each request does ----------

  lemma VipIsRow(ms: seq<Member>, g: nat, m: int)
    requires NoPairTwice(ms)
    ensures IsVip(ms, g, m) <==> Row(ms, g, m).Present? && Row(ms, g, m).flag != 0
  {
    RowIsMember(ms, g, m);
    if i :| 0 <= i < |ms| && At(ms[i], g, m) { RowIsOnly(ms, i); }
  }

  /** A new group belongs to its creator, who gets a row with flag 1; nothing else changes. */
  lemma CreateExact(db: Db, actor: int, h: nat, x: int)
    ensures var t := Serve(db, Create(actor));
            && Row(t.members, h, x) == (if h == db.nextId && x == actor then Present(1) else Row(db.members, h, x))
            && Holding(t.groups, h) == (if h == db.nextId then Owner(actor) else Holding(db.groups, h))
  {
    RowAppend(db.members, Member(db.nextId, actor, 1), h, x);
  }

  /** Who has no row in a group that exists gets one with flag 0. */
  lemma JoinExact(db: Db, actor: int, g: nat, h: nat, x: int)
    ensures var t := Serve(db, Join(actor, g));
            && t.groups == db.groups
            && Row(t.members, h, x) ==
               if Holding(db.groups, g) != Nobody && Row(db.members, g, actor) == Absent && h == g && x == actor
               then Present(0) else Row(db.members, h, x)
  {
    RowIsMember(db.members, g, actor);
    RowAppend(db.members, Member(g, actor, 0), h, x);
  }

  /** Whoever leaves has no row in the group any more. */
  lemma QuitExact(db: Db, actor: int, g: nat, h: nat, x: int)
    ensures var t := Serve(db, Quit(actor, g));
            && t.groups == db.groups
            && Row(t.members, h, x) == if h == g && x == actor then Absent else Row(db.members, h, x)
  {
    RowIsMember(db.members, g, actor);
    RowWithoutMember(db.members, g, actor, h, x);
  }

  /** A group deleted by its owner is gone, with all its rows. */
  lemma DeleteExact(db: Db, actor: int, g: nat, h: nat, x: int)
    ensures var t, gone := Serve(db, Delete(actor, g)), Holding(db.groups, g) == Owner(actor) && h == g;
            && Row(t.members, h, x) == (if gone then Absent else Row(db.members, h, x))
            && Holding(t.groups, h) == (if gone then Nobody else Holding(db.groups, h))
  {
    RowWithoutGroup(db.members, g, h, x);
  }

  /** A member promoted by the owner carries flag 2. */
  lemma PromoteExact(db: Db, actor: int, g: nat, m: int, h: nat, x: int)
    ensures var t := Serve(db, Promote(actor, g, m));
            && t.groups == db.groups
            && Row(t.members, h, x) ==
               if Holding(db.groups, g) == Owner(actor) && Row(db.members, g, m).Present? && h == g && x == m
               then Present(2) else Row(db.members, h, x)
  {
    RowIsMember(db.members, g, m);
    RowWithFlagTwo(db.members, g, m, h, x);
  }

  /** Whom a member brings in gets a row with flag 0, unless there is one. */
  lemma InviteExact(db: Db, actor: int, g: nat, m: int, h: nat, x: int)
    ensures var t := Serve(db, Invite(actor, g, m));
            && t.groups == db.groups
            && Row(t.members, h, x) ==
               if Row(db.members, g, actor).Present? && Row(db.members, g, m) == Absent && h == g && x == m
               then Present(0) else Row(db.members, h, x)
  {
    RowIsMember(db.members, g, actor);
    RowIsMember(db.members, g, m);
    RowAppend(db.members, Member(g, m, 0), h, x);
  }

  /** Whom an account with a flag removes has no row any more; the others keep theirs. */
  lemma KickExact(db: Db, actor: int, g: nat, m: int, h: nat, x: int)
    requires NoPairTwice(db.members)
    ensures var t, flagged := Serve(db, Kick(actor, g, m)), Row(db.members, g, actor);
            && t.groups == db.groups
            && Row(t.members, h, x) ==
               if flagged.Present? && flagged.flag != 0 && h == g && x == m then Absent else Row(db.members, h, x)
  {
    VipIsRow(db.members, g, actor);
    RowWithoutMember(db.members, g, m, h, x);
  }

  /** The account a request puts in, raises or takes out. */
  function Subject(q: Request): int {
    if q.Promote? || q.Invite? || q.Kick? then q.account else q.actor
  }

  /** The event is of the request's kind, under its actor, its group and the account it is about. */
  ghost predicate IsEventOf(e: Event, q: Request, g: nat) {
    && e.actor == q.actor && e.group == g
    && (e.Created? <==> q.Create?) && (e.Inserted? <==> q.Join? || q.Invite?)
    && (e.Granted? <==> q.Promote?) && (e.Dropped? <==> q.Delete?)
    && (e.Inserted? || e.Granted? || e.Removed? ==> e.account == Subject(q))
  }

  /** A request that changes anything is logged once, as what it is. */
  lemma LoggedAsAsked(db: Db, q: Request)
    ensures var t, g := Serve(db, q), if q.Create? then db.nextId else q.group;
            t == db || exists e :: IsEventOf(e, q, g) && t.log == db.log + [e]
  {
    var t := Serve(db, q);
    if t != db {
      var e := t.log[|db.log|];
      assert IsEventOf(e, q, if q.Create? then db.nextId else q.group) && t.log == db.log + [e];
    }
  }

  // ---------- What holds after any requests ----------

  /** Every member row names an existing group, and no pair occurs twice. */
  lemma TablesSound(qs: seq<Request>)
    ensures var db := Run(EMPTY, qs);
            RowsHaveGroups(db) && NoPairTwice(db.members)
  {
    RunInv(qs);
  }

  /** The row of a group and an account is there, with its flag, exactly when the last event
      about them says so. */
  lemma TableMirrorsHistory(qs: seq<Request>, g: nat, m: int)
    ensures var db := Run(EMPTY, qs);
            && (IsMember(db.members, g, m) <==> History(db.log, g, m).Present?)
            && (forall i :: 0 <= i < |db.members| && At(db.members[i], g, m) ==>
                  History(db.log, g, m) == Present(db.members[i].flag))
  {
    RunInv(qs);
    var db := Run(EMPTY, qs);
    RowIsMember(db.members, g, m);
    forall i | 0 <= i < |db.members| && At(db.members[i], g, m)
      ensures History(db.log, g, m) == Present(db.members[i].flag)
    {
      RowIsOnly(db.members, i);
    }
  }

  /** The last event about the pair, if it left a row with flag 1 or 2. */
  lemma {:induction false} LastWord(log: seq<Event>, g: nat, m: int) returns (k: nat)
    requires History(log, g, m).Present?
    ensures k < |log| && After(log[k], g, m, Absent) == History(log, g, m)
    ensures forall j, s :: k < j < |log| ==> After(log[j], g, m, s) == s
  {
    k := |log| - 1;
    if After(log[k], g, m, Absent) != After(log[k], g, m, Present(0)) {
      k := LastWord(log[..k], g, m);
    }
  }

  /** A row with a flag owes it to the last event about its pair. */
  lemma RowsLastWord(db: Db, r: Member) returns (k: nat)
    requires NoPairTwice(db.members) && Mirrors(db) && r in db.members
    ensures k < |db.log| && After(db.log[k], r.group, r.account, Absent) == Present(r.flag)
    ensures forall j, s :: k < j < |db.log| ==> After(db.log[j], r.group, r.account, s) == s
  {
    var i :| 0 <= i < |db.members| && db.members[i] == r;
    RowIsOnly(db.members, i);
    k := LastWord(db.log, r.group, r.account);
  }

  lemma CreatorIsOwner(db: Db, e: Event)
    requires CreatorsOwn(db) && e in db.log && e.Created? && e.group in db.groups
    ensures db.groups[e.group] == e.actor
  {
    assert Created(e.group, db.groups[e.group]) in db.log;
  }

  /** Flag 1 is carried by the group's creator only. */
  lemma FlagOneIsCreator(qs: seq<Request>, r: Member)
    requires r in Run(EMPTY, qs).members && r.flag == 1
    ensures var db := Run(EMPTY, qs);
            r.group in db.groups && db.groups[r.group] == r.account
  {
    RunInv(qs);
    var db := Run(EMPTY, qs);
    var k := RowsLastWord(db, r);
    assert db.log[k] == Created(r.group, r.account);
    CreatorIsOwner(db, db.log[k]);
  }

  lemma GranterIsOwner(db: Db, e: Event)
    requires CreatorsOwn(db) && OnlyCreatorsGrant(db) && e in db.log && e.Granted? && e.group in db.groups
    ensures db.groups[e.group] == e.actor
  {
    CreatorIsOwner(db, Created(e.group, e.actor));
  }

  /** The event inserts, or creates the group with, the row of `g` and `m`. */
  ghost predicate Inserts(e: Event, g: nat, m: int) {
    (e.Inserted? && e.group == g && e.account == m) || e == Created(g, m)
  }

  /** Every flag-2 row was granted by the group's owner after the row was last inserted. */
  lemma FlagTwoIsGranted(qs: seq<Request>, r: Member) returns (k: nat)
    requires r in Run(EMPTY, qs).members && r.flag == 2
    ensures var db := Run(EMPTY, qs);
            && r.group in db.groups
            && k < |db.log| && db.log[k] == Granted(r.group, r.account, db.groups[r.group])
            && forall j :: k < j < |db.log| ==> !Inserts(db.log[j], r.group, r.account)
  {
    RunInv(qs);
    var db := Run(EMPTY, qs);
    k := RowsLastWord(db, r);
    assert db.log[k].Granted? && db.log[k].group == r.group && db.log[k].account == r.account;
    GranterIsOwner(db, db.log[k]);
    forall j | k < j < |db.log| ensures !Inserts(db.log[j], r.group, r.account) {
      assert After(db.log[j], r.group, r.account, Absent) == Absent;
    }
  }

  /** Every change ever made to the tables was in order at the moment it was made. */
  lemma EverythingAuthorised(qs: seq<Request>)
    ensures InOrder(Run(EMPTY, qs).log)
    ensures GroupsMirror(Run(EMPTY, qs))
  {
    RunInv(qs);
  }

  /** Whoever removed somebody else from a group had created the group or been promoted in it
      by its creator, at some time before. */
  lemma KicksAuthorised(qs: seq<Request>, k: nat)
    requires k < |Run(EMPTY, qs).log|
    requires var e := Run(EMPTY, qs).log[k]; e.Removed? && e.actor != e.account
    ensures var log := Run(EMPTY, qs).log;
            exists i :: 0 <= i < k &&
              (log[i] == Created(log[k].group, log[k].actor)
               || (log[i].Granted? && log[i].group == log[k].group && log[i].account == log[k].actor
                   && Created(log[k].group, log[i].actor) in log))
  {
    RunInv(qs);
    var log := Run(EMPTY, qs).log;
    assert Allowed(log[..k], log[k]);
    FlagsComeFromEvents(log[..k], log[k].group, log[k].actor);
    var i :| 0 <= i < k && (log[..k][i] == Created(log[k].group, log[k].actor)
      || (log[..k][i].Granted? && log[..k][i].group == log[k].group && log[..k][i].account == log[k].actor));
    assert log[i] in log;
  }

  // ---------- The server ----------

  /** What the handlers send back. */
  datatype Reply = Done | NewGroup(id: nat) | AlreadyMember | NoSuchGroup | NotMember | NotOwner | NotVip

  function ReplyTo(db: Db, q: Request): Reply {
    match q
    case Create(_) => NewGroup(db.nextId)
    case Join(actor, g) =>
      if g !in db.groups then NoSuchGroup else if IsMember(db.members, g, actor) then AlreadyMember else Done
    case Quit(actor, g) => if IsMember(db.members, g, actor) then Done else NotMember
    case Delete(actor, g) => if IsOwner(db.groups, g, actor) then Done else NotOwner
    case Promote(actor, g, m) =>
      if !IsOwner(db.groups, g, actor) then NotOwner else if IsMember(db.members, g, m) then Done else NotMember
    case Invite(actor, g, m) =>
      if !IsMember(db.members, g, actor) then NotMember else if IsMember(db.members, g, m) then AlreadyMember else Done
    case Kick(actor, g, _) => if IsVip(db.members, g, actor) then Done else NotVip
  }

  /** A request is answered with success exactly when it is carried out, and otherwise changes
      nothing and is told a true reason. */
  lemma RepliesTellEffects(db: Db, q: Request)
    requires NoPairTwice(db.members)
    ensures var r := ReplyTo(db, q);
            && (r.Done? || r.NewGroup? <==> |Serve(db, q).log| > |db.log|)
            && (r.Done? || r.NewGroup? || Serve(db, q) == db)
            && (r.NoSuchGroup? ==> q.Join? && Holding(db.groups, q.group) == Nobody)
            && (r.AlreadyMember? ==> (q.Join? || q.Invite?) && Row(db.members, q.group, Subject(q)).Present?)
            && (r.NotMember? ==> q.Quit? || q.Promote? || q.Invite?)
            && (r.NotMember? ==> Row(db.members, q.group, if q.Promote? then q.account else q.actor) == Absent)
            && (r.NotOwner? ==> (q.Delete? || q.Promote?) && Holding(db.groups, q.group) != Owner(q.actor))
            && (r.NotVip? ==> q.Kick? && Row(db.members, q.group, q.actor) in {Absent, Present(0)})
  {
    if !q.Create? {
      RowIsMember(db.members, q.group, q.actor);
      RowIsMember(db.members, q.group, Subject(q));
      VipIsRow(db.members, q.group, q.actor);
    }
  }

  lemma {:induction false} IdsGrow(qs: seq<Request>, i: nat)
    requires i <= |qs|
    ensures Run(EMPTY, qs[..i]).nextId <= Run(EMPTY, qs).nextId
  {
    if i == |qs| {
      assert qs[..i] == qs;
    } else {
      var init := qs[..|qs| - 1];
      IdsGrow(init, i);
      assert init[..i] == qs[..i];
    }
  }

  /** The id sent back for a new group is not that of any group or row so far, and is never sent
      back again. */
  lemma NewIdIsFresh(qs: seq<Request>, i: nat)
    requires i < |qs| && qs[i].Create?
    ensures var db := Run(EMPTY, qs[..i]);
            && ReplyTo(db, qs[i]) == NewGroup(db.nextId)
            && db.nextId !in db.groups && forall r :: r in db.members ==> r.group != db.nextId
    ensures forall j :: i < j < |qs| && qs[j].Create? ==>
              ReplyTo(Run(EMPTY, qs[..j]), qs[j]) != ReplyTo(Run(EMPTY, qs[..i]), qs[i])
  {
    var db := Run(EMPTY, qs[..i]);
    RunInv(qs[..i]);
    forall g | g in db.groups ensures g < db.nextId {
      assert Created(g, db.groups[g]) in db.log;
    }
    forall j | i < j < |qs| && qs[j].Create?
      ensures ReplyTo(Run(EMPTY, qs[..j]), qs[j]) != ReplyTo(db, qs[i])
    {
      IdsGrow(qs[..j], i + 1);
      assert qs[..j][..i + 1] == qs[..i] + [qs[i]];
      assert (qs[..i] + [qs[i]])[..i] == qs[..i];
    }
  }

  class Server {
    var groups: map<nat, int>
    var members: seq<Member>
    var nextId: nat
    ghost var log: seq<Event>

    ghost function Tables(): Db
      reads this
    {
      Db(groups, members, nextId, log)
    }

    constructor ()
      ensures Tables() == EMPTY
    {
      groups, members, nextId, log := map[], [], 1, [];
    }

    method MysqlCreatGroup(account: int) returns (id: nat)
      modifies this
      ensures Tables() == Serve(old(Tables()), Create(account)) && id == old(nextId)
    {
      id := nextId;
      groups := groups[id := account];
      nextId := nextId + 1;
      members := members + [Member(id, account, 1)];
      log := log + [Created(id, account)];
    }

    method MysqlJoinGroup(account: int, group: nat, ghost actor: int)
      modifies this`members, this`log
      ensures members == old(members) + [Member(group, account, 0)]
      ensures log == old(log) + [Inserted(group, account, actor)]
    {
      members := members + [Member(group, account, 0)];
      log := log + [Inserted(group, account, actor)];
    }

    method MysqlQuitGroup(account: int, group: nat, ghost actor: int)
      modifies this`members, this`log
      ensures members == WithoutMember(old(members), group, account)
      ensures log == old(log) + [Removed(group, account, actor)]
    {
      members := WithoutMember(members, group, account);
      log := log + [Removed(group, account, actor)];
    }

    method MysqlDeleGroup(group: nat, ghost actor: int)
      modifies this`members, this`groups, this`log
      ensures members == WithoutGroup(old(members), group) && groups == old(groups) - {group}
      ensures log == old(log) + [Dropped(group, actor)]
    {
      members := WithoutGroup(members, group);
      groups := groups - {group};
      log := log + [Dropped(group, actor)];
    }

    method MysqlSetUp(group: nat, account: int, ghost actor: int)
      modifies this`members, this`log
      ensures members == WithFlagTwo(old(members), group, account)
      ensures log == old(log) + [Granted(group, account, actor)]
    {
      members := WithFlagTwo(members, group, account);
      log := log + [Granted(group, account, actor)];
    }

    method DealCreatGroup(account: int) returns (reply: Reply)
      modifies this
      ensures Tables() == Serve(old(Tables()), Create(account))
      ensures reply == ReplyTo(old(Tables()), Create(account))
    {
      var id := MysqlCreatGroup(account);
      reply := NewGroup(id);
    }

    method DealJoinGroup(account: int, group: nat) returns (reply: Reply)
      modifies this
      ensures Tables() == Serve(old(Tables()), Join(account, group))
      ensures reply == ReplyTo(old(Tables()), Join(account, group))
    {
      if group in groups {
        if IsMember(members, group, account) {
          reply := AlreadyMember;
        } else {
          MysqlJoinGroup(account, group, account);
          reply := Done;
        }
      } else {
        reply := NoSuchGroup;
      }
    }

    method DealQuitGroup(account: int, group: nat) returns (reply: Reply)
      modifies this
      ensures Tables() == Serve(old(Tables()), Quit(account, group))
      ensures reply == ReplyTo(old(Tables()), Quit(account, group))
    {
      if !IsMember(members, group, account) {
        reply := NotMember;
      } else {
        MysqlQuitGroup(account, group, account);
        reply := Done;
      }
    }

    method DealDeleGroup(account: int, group: nat) returns (reply: Reply)
      modifies this
      ensures Tables() == Serve(old(Tables()), Delete(account, group))
      ensures reply == ReplyTo(old(Tables()), Delete(account, group))
    {
      if !IsOwner(groups, group, account) {
        reply := NotOwner;
      } else {
        MysqlDeleGroup(group, account);
        reply := Done;
      }
    }

    method DealSetUp(account: int, group: nat, other: int) returns (reply: Reply)
      modifies this
      ensures Tables() == Serve(old(Tables()), Promote(account, group, other))
      ensures reply == ReplyTo(old(Tables()), Promote(account, group, other))
    {
      if IsOwner(groups, group, account) {
        if IsMember(members, group, other) {
          MysqlSetUp(group, other, account);
          reply := Done;
        } else {
          reply := NotMember;
        }
      } else {
        reply := NotOwner;
      }
    }

    method DealJoinUser(account: int, group: nat, other: int) returns (reply: Reply)
      modifies this
      ensures Tables() == Serve(old(Tables()), Invite(account, group, other))
      ensures reply == ReplyTo(old(Tables()), Invite(account, group, other))
    {
      if IsMember(members, group, account) {
        if IsMember(members, group, other) {
          return AlreadyMember;
        }
        MysqlJoinGroup(other, group, account);
        reply := Done;
      } else {
        reply := NotMember;
      }
    }

    method DealDeleUser(account: int, group: nat, other: int) returns (reply: Reply)
      modifies this
      ensures Tables() == Serve(old(Tables()), Kick(account, group, other))
      ensures reply == ReplyTo(old(Tables()), Kick(account, group, other))
    {
      if IsVip(members, group, account) {
        MysqlQuitGroup(other, group, account);
        reply := Done;
      } else {
        reply := NotVip;
      }
    }

    method Deal(q: Request) returns (reply: Reply)
      modifies this
      ensures Tables() == Serve(old(Tables()), q)
      ensures reply == ReplyTo(old(Tables()), q)
    {
      match q {
        case Create(account) => reply := DealCreatGroup(account);
        case Join(account, group) => reply := DealJoinGroup(account, group);
        case Quit(account, group) => reply := DealQuitGroup(account, group);
        case Delete(account, group) => reply := DealDeleGroup(account, group);
        case Promote(account, group, other) => reply := DealSetUp(account, group, other);
        case Invite(account, group, other) => reply := DealJoinUser(account, group, other);
        case Kick(account, group, other) => reply := DealDeleUser(account, group, other);
      }
    }
  }

  ghost predicate Answered(qs: seq<Request>, replies: seq<Reply>) {
    |replies| == |qs| && forall k :: 0 <= k < |qs| ==> replies[k] == ReplyTo(Run(EMPTY, qs[..k]), qs[k])
  }

  lemma AnswerOne(qs: seq<Request>, replies: seq<Reply>, q: Request)
    requires Answered(qs, replies)
    ensures Answered(qs + [q], replies + [ReplyTo(Run(EMPTY, qs), q)])
    ensures Run(EMPTY, qs + [q]) == Serve(Run(EMPTY, qs), q)
  {
    assert (qs + [q])[..|qs|] == qs;
    forall k | 0 <= k < |qs| ensures (qs + [q])[..k] == qs[..k] {
    }
  }

  /** A server fed any requests ends in the state whose properties are proved above. */
  method ServeAll(qs: seq<Request>) returns (server: Server, replies: seq<Reply>)
    ensures fresh(server) && server.Tables() == Run(EMPTY, qs) && Inv(server.Tables())
    ensures Answered(qs, replies)
  {
    server := new Server();
    replies := [];
    for k := 0 to |qs|
      invariant fresh(server) && server.Tables() == Run(EMPTY, qs[..k])
      invariant Answered(qs[..k], replies)
    {
      AnswerOne(qs[..k], replies, qs[k]);
      assert qs[..k + 1] == qs[..k] + [qs[k]];
      var reply := server.Deal(qs[k]);
      replies := replies + [reply];
    }
    assert qs[..|qs|] == qs;
    RunInv(qs);
  }
}
