/** The chat server's messages for accounts that are not online (server_deal.c): one linked list
    for everybody, extended at its end and pruned in place when an account logs in. */
module OfflineMessages {
  import opened LinkedNodes

  datatype Pack = Pack(kind: int, account: int, sendName: string, sendAccount: int, mes: string, mes2: string)

  /** The messages of `s` addressed to account `a`, in order. */
  function For(s: seq<Pack>, a: int): seq<Pack> {
    if s == [] then []
    else if s[|s| - 1].sendAccount == a then For(s[..|s| - 1], a) + [s[|s| - 1]]
    else For(s[..|s| - 1], a)
  }

  /** The messages of `s` addressed to anybody else, in order. */
  function NotFor(s: seq<Pack>, a: int): seq<Pack> {
    if s == [] then []
    else if s[|s| - 1].sendAccount == a then NotFor(s[..|s| - 1], a)
    else NotFor(s[..|s| - 1], a) + [s[|s| - 1]]
  }

  lemma {:induction false} ForConcat(s: seq<Pack>, t: seq<Pack>, a: int)
    ensures For(s + t, a) == For(s, a) + For(t, a)
  {
    if t == [] {
      assert s + t == s;
    } else {
      ForConcat(s, t[..|t| - 1], a);
      assert (s + t)[..|s + t| - 1] == s + t[..|t| - 1];
    }
  }

  /** Exactly the messages addressed to the account, each as often as it is there. */
  lemma {:induction false} ForExact(s: seq<Pack>, a: int)
    ensures forall m :: multiset(For(s, a))[m] == if m.sendAccount == a then multiset(s)[m] else 0
    ensures forall m :: m in For(s, a) <==> m in s && m.sendAccount == a
  {
    if s != [] {
      var init, last := s[..|s| - 1], s[|s| - 1];
      assert s == init + [last];
      ForExact(init, a);
    }
    forall m ensures m in For(s, a) <==> m in multiset(For(s, a)) {
    }
    forall m ensures m in s <==> m in multiset(s) {
    }
  }

  /** Delivering to `b` leaves the messages of every other account as they were, in order, and
      none of `b`'s. */
  lemma {:induction false} PruneKeeps(s: seq<Pack>, a: int, b: int)
    ensures For(NotFor(s, b), a) == if a == b then [] else For(s, a)
    ensures For(For(s, b), a) == if a == b then For(s, a) else []
  {
    if s != [] {
      var init, last := s[..|s| - 1], s[|s| - 1];
      PruneKeeps(init, a, b);
      assert (NotFor(init, b) + [last])[..|NotFor(init, b)|] == NotFor(init, b);
      assert (For(init, b) + [last])[..|For(init, b)|] == For(init, b);
    }
  }

  /** For every account, what was queued is what was sent followed by what is pending. */
  ghost predicate Accounted(queued: seq<Pack>, sent: seq<Pack>, pending: seq<Pack>) {
    forall a :: For(queued, a) == For(sent, a) + For(pending, a)
  }

  lemma QueueAccounted(queued: seq<Pack>, sent: seq<Pack>, pending: seq<Pack>, m: Pack)
    requires Accounted(queued, sent, pending)
    ensures Accounted(queued + [m], sent, pending + [m])
  {
    forall a ensures For(queued + [m], a) == For(sent, a) + For(pending + [m], a) {
      ForConcat(queued, [m], a);
      ForConcat(pending, [m], a);
    }
  }

  lemma LoginAccounted(queued: seq<Pack>, sent: seq<Pack>, pending: seq<Pack>, b: int)
    requires Accounted(queued, sent, pending)
    ensures Accounted(queued, sent + For(pending, b), NotFor(pending, b))
  {
    forall a ensures For(queued, a) == For(sent + For(pending, b), a) + For(NotFor(pending, b), a) {
      ForConcat(sent, For(pending, b), a);
      PruneKeeps(pending, a, b);
    }
  }

  /** A message and a link. */
  type Message = Node<Pack>

  ghost function Packs(ns: seq<Message>): (s: seq<Pack>)
    ensures |s| == |ns|
    ensures forall i :: 0 <= i < |ns| ==> s[i] == ns[i].data
  {
    seq(|ns|, i requires 0 <= i < |ns| => ns[i].data)
  }

  /** Lines 653-655: a new last node. */
  method Extend(pend: Message, pack: Pack, ghost ns: seq<Message>) returns (pnew: Message)
    requires Linked(ns) && pend == ns[|ns| - 1]
    modifies pend
    ensures fresh(pnew) && pnew.data == pack && Linked(ns + [pnew])
  {
    pnew := new Node(pack);
    pend.next := pnew;
  }

  /** `r` is node `q` of the list `ns`, which is made of nodes of `all`. */
  ghost predicate Standing(ns: seq<Message>, all: set<Message>, r: Message, q: nat)
    reads ns, r
  {
    && Linked(ns) && Within(ns, all) && q < |ns| && r == ns[q]
    && r.next == if q + 1 < |ns| then ns[q + 1] else null
  }

  lemma StandAt(ns: seq<Message>, all: set<Message>, q: nat)
    requires Linked(ns) && Within(ns, all) && q < |ns|
    ensures Standing(ns, all, ns[q], q)
  {
  }

  /** Line 695: the node behind `r` leaves the list. */
  method Unlink(r: Message, ghost ns: seq<Message>, ghost all: set<Message>, ghost q: nat)
    requires Standing(ns, all, r, q) && q + 1 < |ns|
    modifies r
    ensures Standing(ns[..q + 1] + ns[q + 2..], all, r, q)
  {
    assert q + 2 < |ns| ==> ns[q + 1].next == ns[q + 2];
    r.next := r.next.next;
  }

  class OfflineList {
    var phead: Node?<Pack>
    var pend: Node?<Pack>
    ghost var nodes: seq<Message>  // the dummy, if there is one, and the pending nodes

    ghost predicate Valid()
      reads this, nodes
    {
      && (phead == null <==> nodes == [])
      && (phead != null ==> Linked(nodes) && phead == nodes[0] && pend == nodes[|nodes| - 1])
    }

    /** The messages waiting, oldest first. */
    ghost function Pending(): seq<Pack>
      reads this
    {
      if nodes == [] then [] else Packs(nodes[1..])
    }

    constructor ()
      ensures Valid() && nodes == [] && Pending() == []
    {
      phead, pend, nodes := null, null, [];
    }

    /** Lines 640-644 and 659-663: a dummy is made on first use; `blank` is what its
        uninitialised fields hold. */
    method MakeDummy(blank: Pack)
      requires Valid()
      modifies this
      ensures Valid() && phead != null && Pending() == old(Pending())
      ensures nodes == old(nodes) || (old(nodes) == [] && |nodes| == 1 && fresh(nodes[0]))
    {
      if phead == null {
        phead := new Node(blank);
        pend := phead;
        nodes := [phead];
        assert Packs(nodes[1..]) == [];
      }
    }

    /** What `deal_group_off` and `deal_fri_off` share: a new node at the end. */
    method Append(pack: Pack, blank: Pack)
      requires Valid()
      modifies this, nodes
      ensures Valid() && Pending() == old(Pending()) + [pack]
      ensures forall n :: n in nodes && n !in old(nodes) ==> fresh(n)
    {
      MakeDummy(blank);
      var pnew := Extend(pend, pack, nodes);
      pend := pnew;
      assert Packs((nodes + [pnew])[1..]) == Packs(nodes[1..]) + [pack];
      nodes := nodes + [pnew];
    }

    /** `deal_group_off` stores every field of the message. */
    method DealGroupOff(pack: Pack, blank: Pack)
      requires Valid()
      modifies this, nodes
      ensures Valid() && Pending() == old(Pending()) + [pack]
      ensures forall n :: n in nodes && n !in old(nodes) ==> fresh(n)
    {
      Append(pack, blank);
    }

    /** `deal_fri_off` leaves the sender's name and the second text as `malloc` returned them. */
    method DealFriOff(pack: Pack, blank: Pack, junkName: string, junkMes2: string)
      requires Valid()
      modifies this, nodes
      ensures Valid()
      ensures Pending() == old(Pending()) + [pack.(sendName := junkName, mes2 := junkMes2)]
      ensures forall n :: n in nodes && n !in old(nodes) ==> fresh(n)
    {
      Append(pack.(sendName := junkName, mes2 := junkMes2), blank);
    }

    /** `pro_off`: sends an account its messages, in order, and takes them off the list. */
    method ProOff(account: int) returns (out: seq<Pack>)
      requires Valid()
      modifies this, nodes
      ensures Valid()
      ensures out == For(old(Pending()), account)
      ensures Pending() == NotFor(old(Pending()), account)
      ensures forall n :: n in nodes ==> n in old(nodes)
    {
      out := [];
      if phead == null {
        return;
      }
      var last;
      ghost var ns;
      last, out, ns := Prune(phead, account, nodes);
      pend := last;
      nodes := ns;
    }
  }

  /** The walk has passed `c` messages of the list `all`: node `q` of `ns` is the last one kept,
      and everything after it is still to come. */
  ghost predicate Walked(all: seq<Message>, ns: seq<Message>, q: nat, c: nat, account: int, out: seq<Pack>) {
    && c < |all| && q < |ns| && ns[0] == all[0]
    && ns[q + 1..] == all[c + 1..]
    && out == For(Packs(all[1..c + 1]), account)
    && Packs(ns[1..q + 1]) == NotFor(Packs(all[1..c + 1]), account)
  }

  lemma WalkStep(all: seq<Message>, ns: seq<Message>, q: nat, c: nat, account: int, out: seq<Pack>)
    requires Walked(all, ns, q, c, account, out) && q + 1 < |ns|
    ensures var p := ns[q + 1];
            if p.data.sendAccount == account
            then Walked(all, ns[..q + 1] + ns[q + 2..], q, c + 1, account, out + [p.data])
            else Walked(all, ns, q + 1, c + 1, account, out)
  {
    var p, w := ns[q + 1], Packs(all[1..c + 2]);
    assert p == ns[q + 1..][0] == all[c + 1..][0];
    assert w[..c] == Packs(all[1..c + 1]) && w[c] == p.data;
    assert ns[q + 2..] == ns[q + 1..][1..] == all[c + 1..][1..] == all[c + 2..];
    if p.data.sendAccount == account {
      var t := ns[..q + 1] + ns[q + 2..];
      assert t[1..q + 1] == ns[1..q + 1] && t[q + 1..] == ns[q + 2..];
    } else {
      assert Packs(ns[1..q + 2]) == Packs(ns[1..q + 1]) + [p.data];
    }
  }

  /** Lines 684-699: one turn of the loop. */
  method Visit(r: Message, account: int, out: seq<Pack>,
               ghost all: seq<Message>, ghost within: set<Message>, ghost ns: seq<Message>, ghost q: nat, ghost c: nat)
      returns (r': Message, out': seq<Pack>, ghost ns': seq<Message>, ghost q': nat)
    requires Walked(all, ns, q, c, account, out) && Standing(ns, within, r, q) && r.next != null
    modifies r
    ensures Walked(all, ns', q', c + 1, account, out') && Standing(ns', within, r', q')
    ensures |ns'| - q' == |ns| - q - 1
  {
    var p := r.next;
    WalkStep(all, ns, q, c, account, out);
    if p.data.sendAccount == account {
      r', out', ns', q' := r, out + [p.data], ns[..q + 1] + ns[q + 2..], q;
      Unlink(r, ns, within, q);
    } else {
      StandAt(ns, within, q + 1);
      r', out', ns', q' := r.next, out, ns, q + 1;
    }
  }

  /** Lines 681-701: the walk along the list, ending at its last node. */
  method Prune(phead: Message, account: int, ghost all: seq<Message>)
      returns (r: Message, out: seq<Pack>, ghost ns: seq<Message>)
    requires Linked(all) && phead == all[0]
    modifies all
    ensures Linked(ns) && phead == ns[0] && r == ns[|ns| - 1]
    ensures forall n :: n in ns ==> n in all
    ensures out == For(Packs(all[1..]), account)
    ensures Packs(ns[1..]) == NotFor(Packs(all[1..]), account)
  {
    ghost var within := set n | n in all;
    ghost var c: nat, q: nat := 0, 0;  // messages passed, messages kept among them
    r, out, ns := phead, [], all;
    StandAt(ns, within, 0);
    while r.next != null
      invariant Walked(all, ns, q, c, account, out)
      invariant Standing(ns, within, r, q)
      decreases |ns| - q
    {
      r, out, ns, q := Visit(r, account, out, all, within, ns, q, c);
      c := c + 1;
    }
    WalkEnd(all, ns, q, c, account, out);
  }

  lemma WalkEnd(all: seq<Message>, ns: seq<Message>, q: nat, c: nat, account: int, out: seq<Pack>)
    requires Walked(all, ns, q, c, account, out) && q + 1 == |ns|
    ensures out == For(Packs(all[1..]), account) && Packs(ns[1..]) == NotFor(Packs(all[1..]), account)
  {
    assert |ns[q + 1..]| == 0 == |all[c + 1..]|;
    assert ns[1..q + 1] == ns[1..] && all[1..c + 1] == all[1..];
  }

  // ---------- Any interleaving ----------

  datatype Event =
    | GroupOff(pack: Pack)
    | FriOff(pack: Pack, junkName: string, junkMes2: string)
    | Login(account: int)

  /** What an event adds to the list. */
  function Stored(e: Event): seq<Pack> {
    match e
    case GroupOff(pack) => [pack]
    case FriOff(pack, name, mes2) => [pack.(sendName := name, mes2 := mes2)]
    case Login(_) => []
  }

  /** `m` is the message of the event: all of it, or all but the sender's name and the second
      text when it is from a friend. */
  predicate IsFrom(m: Pack, e: Event) {
    match e
    case GroupOff(pack) => m == pack
    case FriOff(pack, _, _) =>
      m.kind == pack.kind && m.account == pack.account && m.sendAccount == pack.sendAccount && m.mes == pack.mes
    case Login(_) => false
  }

  /** Every event but a login stores one message, its own. */
  lemma StoredIsFrom(e: Event)
    ensures if e.Login? then Stored(e) == [] else |Stored(e)| == 1 && IsFrom(Stored(e)[0], e)
  {
  }

  /** Everything the events queue, in order. */
  function Queued(events: seq<Event>): seq<Pack> {
    if events == [] then [] else Queued(events[..|events| - 1]) + Stored(events[|events| - 1])
  }

  /** A login is sent messages addressed to it; the other events send nothing. */
  ghost predicate Answers(e: Event, out: seq<Pack>) {
    if e.Login? then forall m :: m in out ==> m.sendAccount == e.account else out == []
  }

  /** What is pending after an event, and what the event sends. */
  function Left(e: Event, pending: seq<Pack>): seq<Pack> {
    if e.Login? then NotFor(pending, e.account) else pending + Stored(e)
  }

  function Sent(e: Event, pending: seq<Pack>): seq<Pack> {
    if e.Login? then For(pending, e.account) else []
  }

  method Handle(list: OfflineList, e: Event, blank: Pack) returns (out: seq<Pack>)
    requires list.Valid()
    modifies list, list.nodes
    ensures list.Valid()
    ensures list.Pending() == Left(e, old(list.Pending())) && out == Sent(e, old(list.Pending()))
    ensures forall n :: n in list.nodes && n !in old(list.nodes) ==> fresh(n)
  {
    out := [];
    match e {
      case GroupOff(pack) => list.DealGroupOff(pack, blank);
      case FriOff(pack, name, mes2) => list.DealFriOff(pack, blank, name, mes2);
      case Login(account) => out := list.ProOff(account);
    }
  }

  lemma EventAccounted(queued: seq<Pack>, sent: seq<Pack>, pending: seq<Pack>, e: Event)
    requires Accounted(queued, sent, pending)
    ensures Accounted(queued + Stored(e), sent + Sent(e, pending), Left(e, pending))
    ensures Answers(e, Sent(e, pending))
  {
    if e.Login? {
      LoginAccounted(queued, sent, pending, e.account);
      ForAddressed(pending, e.account);
      assert queued + [] == queued;
    } else {
      QueueAccounted(queued, sent, pending, Stored(e)[0]);
      assert sent + [] == sent;
    }
  }

  /** By the end of event `k`, all messages queued so far for account `a` have been sent. */
  ghost predicate AllSent(events: seq<Event>, outs: seq<seq<Pack>>, k: nat, a: int)
    requires k < |events| == |outs|
  {
    For(Flatten(outs[..k + 1]), a) == For(Queued(events[..k + 1]), a)
  }

  /** Every login is sent whatever has been queued for its account and not been sent before. */
  ghost predicate Delivered(events: seq<Event>, outs: seq<seq<Pack>>) {
    && |outs| == |events|
    && forall k :: 0 <= k < |events| && events[k].Login? ==> AllSent(events, outs, k, events[k].account)
  }

  lemma SentStays(events: seq<Event>, outs: seq<seq<Pack>>, k: nat, a: int, e: Event, out: seq<Pack>)
    requires k < |events| == |outs| && AllSent(events, outs, k, a)
    ensures AllSent(events + [e], outs + [out], k, a)
  {
    assert (outs + [out])[..k + 1] == outs[..k + 1] && (events + [e])[..k + 1] == events[..k + 1];
  }

  /** A login leaves nothing pending for its account. */
  lemma LoginSends(events: seq<Event>, outs: seq<seq<Pack>>, pending: seq<Pack>, a: int)
    requires |events| == |outs| > 0
    requires Accounted(Queued(events), Flatten(outs), NotFor(pending, a))
    ensures AllSent(events, outs, |events| - 1, a)
  {
    PruneKeeps(pending, a, a);
    assert outs[..|outs|] == outs && events[..|events|] == events;
    assert For(Queued(events), a) == For(Flatten(outs), a) + For(NotFor(pending, a), a);
  }

  lemma DeliverLast(events: seq<Event>, outs: seq<seq<Pack>>, pending: seq<Pack>, e: Event)
    requires |events| == |outs| && e.Login?
    requires Accounted(Queued(events + [e]), Flatten(outs + [Sent(e, pending)]), Left(e, pending))
    ensures AllSent(events + [e], outs + [Sent(e, pending)], |events|, e.account)
  {
    LoginSends(events + [e], outs + [Sent(e, pending)], pending, e.account);
  }

  lemma DeliverOne(events: seq<Event>, outs: seq<seq<Pack>>, pending: seq<Pack>, e: Event)
    requires Delivered(events, outs)
    requires Accounted(Queued(events + [e]), Flatten(outs + [Sent(e, pending)]), Left(e, pending))
    ensures Delivered(events + [e], outs + [Sent(e, pending)])
  {
    var out := Sent(e, pending);
    forall k | 0 <= k < |events| && events[k].Login?
      ensures AllSent(events + [e], outs + [out], k, events[k].account)
    {
      SentStays(events, outs, k, events[k].account, e, out);
    }
    if e.Login? {
      DeliverLast(events, outs, pending, e);
    }
  }

  /** The events served so far, and what they sent and left pending. */
  ghost predicate Served(events: seq<Event>, outs: seq<seq<Pack>>, pending: seq<Pack>) {
    && |outs| == |events|
    && (forall k :: 0 <= k < |events| ==> Answers(events[k], outs[k]))
    && Accounted(Queued(events), Flatten(outs), pending)
    && Delivered(events, outs)
  }

  lemma ServeOne(events: seq<Event>, outs: seq<seq<Pack>>, pending: seq<Pack>, e: Event)
    requires Served(events, outs, pending)
    ensures Served(events + [e], outs + [Sent(e, pending)], Left(e, pending))
  {
    EventAccounted(Queued(events), Flatten(outs), pending, e);
    assert (events + [e])[..|events|] == events;
    assert (outs + [Sent(e, pending)])[..|outs|] == outs;
    DeliverOne(events, outs, pending, e);
  }

  /** What is pending after the events, and what each of them sent. */
  function PendingAfter(events: seq<Event>): seq<Pack> {
    if events == [] then [] else Left(events[|events| - 1], PendingAfter(events[..|events| - 1]))
  }

  function Outs(events: seq<Event>): (outs: seq<seq<Pack>>)
    ensures |outs| == |events|
  {
    if events == [] then []
    else
      var init := events[..|events| - 1];
      Outs(init) + [Sent(events[|events| - 1], PendingAfter(init))]
  }

  lemma OneMore(events: seq<Event>, e: Event)
    ensures PendingAfter(events + [e]) == Left(e, PendingAfter(events))
    ensures Outs(events + [e]) == Outs(events) + [Sent(e, PendingAfter(events))]
  {
    assert (events + [e])[..|events|] == events;
  }

  lemma {:induction false} AllServed(events: seq<Event>)
    ensures Served(events, Outs(events), PendingAfter(events))
  {
    if events != [] {
      var init, e := events[..|events| - 1], events[|events| - 1];
      AllServed(init);
      OneMore(init, e);
      ServeOne(init, Outs(init), PendingAfter(init), e);
      assert events == init + [e];
    }
  }

  /** The event brings a message to account `a`. */
  predicate IsTo(e: Event, a: int) {
    !e.Login? && e.pack.sendAccount == a
  }

  /** The message of the event is among `s`. */
  ghost predicate Arrived(e: Event, s: seq<Pack>) {
    exists m :: m in s && IsFrom(m, e)
  }

  ghost predicate Brought(m: Pack, events: seq<Event>) {
    exists i :: 0 <= i < |events| && IsFrom(m, events[i])
  }

  /** Every message to an account is among those sent by the end of its next login. */
  ghost predicate NoneForgotten(events: seq<Event>, outs: seq<seq<Pack>>)
    requires |outs| == |events|
  {
    forall i, k :: 0 <= i < k < |events| && events[k].Login? && IsTo(events[i], events[k].account) ==>
      Arrived(events[i], Flatten(outs[..k + 1]))
  }

  /** The message may be sent at event `k`: it is for the account logging in, and an event before
      brought it. */
  ghost predicate Genuine(events: seq<Event>, k: nat, m: Pack)
    requires k < |events|
  {
    events[k].Login? && m.sendAccount == events[k].account && Brought(m, events[..k])
  }

  ghost predicate NoneInvented(events: seq<Event>, outs: seq<seq<Pack>>)
    requires |outs| == |events|
  {
    forall k, m :: 0 <= k < |events| && m in outs[k] ==> Genuine(events, k, m)
  }

  lemma {:induction false} QueuedFrom(events: seq<Event>, m: Pack)
    requires m in Queued(events)
    ensures Brought(m, events)
  {
    var last := |events| - 1;
    if m in Stored(events[last]) {
      StoredIsFrom(events[last]);
      assert IsFrom(m, events[last]);
    } else {
      QueuedFrom(events[..last], m);
      var i :| 0 <= i < last && IsFrom(m, events[..last][i]);
      assert IsFrom(m, events[i]);
    }
  }

  lemma {:induction false} StoredIsQueued(events: seq<Event>, i: nat)
    requires i < |events|
    ensures forall m :: m in Stored(events[i]) ==> m in Queued(events)
  {
    var last := |events| - 1;
    if i < last {
      StoredIsQueued(events[..last], i);
    }
  }

  lemma {:induction false} PendingIsQueued(events: seq<Event>, m: Pack)
    requires m in PendingAfter(events)
    ensures m in Queued(events)
  {
    var init, e := events[..|events| - 1], events[|events| - 1];
    if e.Login? {
      NotForIsThere(PendingAfter(init), e.account, m);
    }
    if m in PendingAfter(init) {
      PendingIsQueued(init, m);
    }
  }

  lemma {:induction false} NotForIsThere(s: seq<Pack>, a: int, m: Pack)
    requires m in NotFor(s, a)
    ensures m in s
  {
    if m in NotFor(s[..|s| - 1], a) {
      NotForIsThere(s[..|s| - 1], a, m);
    }
  }

  lemma {:induction false} OutsAt(events: seq<Event>, k: nat)
    requires k < |events|
    ensures Outs(events)[k] == Sent(events[k], PendingAfter(events[..k]))
  {
    var last := |events| - 1;
    var init := events[..last];
    assert Outs(events) == Outs(init) + [Sent(events[last], PendingAfter(init))];
    if k < last {
      OutsAt(init, k);
      assert init[..k] == events[..k];
    }
  }

  lemma SentWasBrought(events: seq<Event>, k: nat, m: Pack)
    requires k < |events| && m in Outs(events)[k]
    ensures Genuine(events, k, m)
  {
    OutsAt(events, k);
    ForExact(PendingAfter(events[..k]), events[k].account);
    PendingIsQueued(events[..k], m);
    QueuedFrom(events[..k], m);
  }

  lemma NothingInvented(events: seq<Event>, outs: seq<seq<Pack>>)
    requires outs == Outs(events)
    ensures NoneInvented(events, outs)
  {
    forall k, m | 0 <= k < |events| && m in outs[k] ensures Genuine(events, k, m) {
      SentWasBrought(events, k, m);
    }
  }

  lemma NothingForgotten(events: seq<Event>, outs: seq<seq<Pack>>)
    requires Delivered(events, outs)
    ensures NoneForgotten(events, outs)
  {
    forall i, k | 0 <= i < k < |events| && events[k].Login? && IsTo(events[i], events[k].account)
      ensures Arrived(events[i], Flatten(outs[..k + 1]))
    {
      var a, m := events[k].account, Stored(events[i])[0];
      StoredIsFrom(events[i]);
      StoredIsQueued(events[..k + 1], i);
      ForExact(Queued(events[..k + 1]), a);
      assert AllSent(events, outs, k, a);
      ForExact(Flatten(outs[..k + 1]), a);
      assert m in Flatten(outs[..k + 1]);
    }
  }

  method ServeLoop(events: seq<Event>, blank: Pack) returns (list: OfflineList, outs: seq<seq<Pack>>)
    ensures fresh(list) && list.Valid()
    ensures outs == Outs(events) && list.Pending() == PendingAfter(events)
  {
    list := new OfflineList();
    outs := [];
    for k := 0 to |events|
      invariant fresh(list) && list.Valid() && fresh(list.nodes)
      invariant outs == Outs(events[..k]) && list.Pending() == PendingAfter(events[..k])
    {
      ghost var before := list.nodes;
      OneMore(events[..k], events[k]);
      assert events[..k + 1] == events[..k] + [events[k]];
      var out := Handle(list, events[k], blank);
      forall i | 0 <= i < |list.nodes| ensures fresh(list.nodes[i]) {
        assert list.nodes[i] in list.nodes;
        assert list.nodes[i] in before ==> fresh(list.nodes[i]);
      }
      outs := outs + [out];
    }
    assert events[..|events|] == events;
  }

  /** Serves any interleaving of offline messages and logins, reporting what each event sent.
      For every account the messages queued are those sent, in order, and then those pending, of
      which there are none when the account has just logged in: no message to it is forgotten,
      and none is sent that was not brought by an event before. */
  method Serve(events: seq<Event>, blank: Pack) returns (list: OfflineList, outs: seq<seq<Pack>>)
    ensures fresh(list) && list.Valid()
    ensures |outs| == |events| && forall k :: 0 <= k < |events| ==> Answers(events[k], outs[k])
    ensures Accounted(Queued(events), Flatten(outs), list.Pending())
    ensures Delivered(events, outs)
    ensures NoneForgotten(events, outs) && NoneInvented(events, outs)
  {
    list, outs := ServeLoop(events, blank);
    AllServed(events);
    NothingForgotten(events, outs);
    NothingInvented(events, outs);
  }

  function Flatten(outs: seq<seq<Pack>>): seq<Pack> {
    if outs == [] then [] else Flatten(outs[..|outs| - 1]) + outs[|outs| - 1]
  }

  lemma {:induction false} ForAddressed(s: seq<Pack>, a: int)
    ensures forall m :: m in For(s, a) ==> m.sendAccount == a
  {
    if s != [] {
      ForAddressed(s[..|s| - 1], a);
    }
  }
}
