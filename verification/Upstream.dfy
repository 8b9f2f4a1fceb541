/** The order in which the gateway tries its managers. */
module Upstream {
  import opened Records
  import opened Seqs

  /** How long an address is avoided after a failure. */
  const AVOID_FOR: Time := 5 * SECOND

  /** The address that worked last, empty if none, and until when each bad address is avoided. */
  datatype Ledger = Ledger(lastOK: string, badUntil: map<string, Time>) {

    function MarkBad(addr: string, now: Time): Ledger {
      Ledger(if lastOK == addr then "" else lastOK, badUntil[addr := now + AVOID_FOR])
    }

    function MarkOK(addr: string): Ledger {
      Ledger(addr, badUntil - {addr})
    }

    predicate Avoided(addr: string, now: Time) {
      addr in badUntil && now < badUntil[addr]
    }

    /** The sticky address is never a bad one. */
    predicate Consistent() {
      lastOK != "" ==> lastOK !in badUntil
    }
  }

  /** The addresses of the list that are neither sticky nor avoided, in order. */
  function Others(l: Ledger, addrs: seq<string>, now: Time): seq<string> {
    if |addrs| == 0 then []
    else
      var last := addrs[|addrs| - 1];
      Others(l, addrs[..|addrs| - 1], now) + if last == l.lastOK || l.Avoided(last, now) then [] else [last]
  }

  /** The sticky address, if it is listed and not bad. */
  function Sticky(l: Ledger, addrs: seq<string>, now: Time): seq<string> {
    if l.lastOK != "" && l.lastOK in addrs && (l.lastOK !in l.badUntil || now > l.badUntil[l.lastOK])
    then [l.lastOK] else []
  }

  function Order(l: Ledger, addrs: seq<string>, now: Time): seq<string> {
    var order := Sticky(l, addrs, now) + Others(l, addrs, now);
    if |order| == 0 then addrs else order
  }

  class GrpcUpstream {
    var lastOK: string
    var badUntil: map<string, Time>

    constructor ()
      ensures Value() == Ledger("", map[])
    {
      lastOK, badUntil := "", map[];
    }

    function Value(): Ledger
      reads this
    {
      Ledger(lastOK, badUntil)
    }

    method MarkBad(addr: string, now: Time)
      modifies this
      ensures Value() == old(Value()).MarkBad(addr, now)
    {
      badUntil := badUntil[addr := now + AVOID_FOR];
      if lastOK == addr {
        lastOK := "";
      }
    }

    method MarkOK(addr: string)
      modifies this
      ensures Value() == old(Value()).MarkOK(addr)
    {
      lastOK := addr;
      badUntil := badUntil - {addr};
    }

    method StickyFirst(addrs: seq<string>, now: Time) returns (order: seq<string>)
      ensures order == Sticky(Value(), addrs, now)
    {
      order := [];
      if lastOK != "" {
        for i := 0 to |addrs|
          invariant lastOK !in addrs[..i] && order == []
        {
          if addrs[i] == lastOK {
            if lastOK !in badUntil || now > badUntil[lastOK] {
              order := order + [lastOK];
            }
            break;
          }
        }
      }
    }

    method PickOrder(addrs: seq<string>, now: Time) returns (order: seq<string>)
      ensures order == Order(Value(), addrs, now)
    {
      hide Sticky;
      order := StickyFirst(addrs, now);
      for i := 0 to |addrs|
        invariant order == Sticky(Value(), addrs, now) + Others(Value(), addrs[..i], now)
      {
        assert addrs[..i + 1][..i] == addrs[..i];
        if addrs[i] == lastOK {
          continue;
        }
        if addrs[i] in badUntil && now < badUntil[addrs[i]] {
          continue;
        }
        order := order + [addrs[i]];
      }
      assert addrs[..|addrs|] == addrs;
      if |order| == 0 {
        order := order + addrs;
      }
    }
  }

  // ---------------------------------------------------------------- every interleaving

  datatype Event = Failed(addr: string, at: Time) | Worked(addr: string)

  function Step(l: Ledger, e: Event): Ledger {
    match e
    case Failed(addr, at) => l.MarkBad(addr, at)
    case Worked(addr) => l.MarkOK(addr)
  }

  function Run(events: seq<Event>): Ledger {
    if |events| == 0 then Ledger("", map[]) else Step(Run(events[..|events| - 1]), events[|events| - 1])
  }

  predicate About(e: Event, addr: string) {
    e.addr == addr
  }

  /** Reading the events alone: the last one about the address, and nothing after it, made it work. */
  ghost predicate WorkedLast(events: seq<Event>, addr: string) {
    exists i ::
      && 0 <= i < |events| && events[i] == Worked(addr)
      && forall k :: i < k < |events| ==> !events[k].Worked? && !About(events[k], addr)
  }

  /** Reading the events alone: the last event about the address is a failure at this instant. */
  ghost predicate FailedLast(events: seq<Event>, addr: string, at: Time) {
    exists i ::
      && 0 <= i < |events| && events[i] == Failed(addr, at)
      && forall k :: i < k < |events| ==> !About(events[k], addr)
  }

  /** The ledger means what the history says: the sticky address is the one that worked last and has
      not failed since, and an address is bad exactly if the last thing heard of it was a failure. */
  lemma {:induction false} RunMeaning(events: seq<Event>, addr: string, at: Time)
    ensures addr != "" ==> (Run(events).lastOK == addr <==> WorkedLast(events, addr))
    ensures (addr in Run(events).badUntil && Run(events).badUntil[addr] == at + 5 * SECOND)
      <==> FailedLast(events, addr, at)
  {
    if |events| > 0 {
      var init, e := events[..|events| - 1], events[|events| - 1];
      RunMeaning(init, addr, at);
      WorkedLastStep(init, e, addr);
      FailedLastStep(init, e, addr, at);
      assert events == init + [e];
    }
  }

  /** Read off the events: the last thing heard of the address is a failure less than five seconds ago. */
  ghost predicate Shunned(events: seq<Event>, addr: string, now: Time) {
    exists at :: FailedLast(events, addr, at) && now < at + 5 * SECOND
  }

  lemma AvoidedMeaning(events: seq<Event>, addr: string, now: Time)
    ensures Run(events).Avoided(addr, now) <==> Shunned(events, addr, now)
  {
    hide Run, FailedLast;
    var l := Run(events);
    if addr in l.badUntil {
      RunMeaning(events, addr, l.badUntil[addr] - 5 * SECOND);
    }
    if at :| FailedLast(events, addr, at) && now < at + 5 * SECOND {
      RunMeaning(events, addr, at);
    }
  }

  lemma WorkedLastStep(init: seq<Event>, e: Event, addr: string)
    ensures WorkedLast(init + [e], addr) <==>
      e == Worked(addr) || (WorkedLast(init, addr) && !e.Worked? && !About(e, addr))
  {
    var events := init + [e];
    if e == Worked(addr) {
      assert events[|init|] == e;
    }
    if i :| 0 <= i < |init| && init[i] == Worked(addr)
            && (forall k :: i < k < |init| ==> !init[k].Worked? && !About(init[k], addr)) {
      assert events[i] == Worked(addr);
      if !e.Worked? && !About(e, addr) {
        forall k | i < k < |events| ensures !events[k].Worked? && !About(events[k], addr) {
        }
      }
    }
    if i :| 0 <= i < |events| && events[i] == Worked(addr)
            && (forall k :: i < k < |events| ==> !events[k].Worked? && !About(events[k], addr)) {
      if i < |init| {
        assert init[i] == Worked(addr);
        assert events[|init|] == e;
        forall k | i < k < |init| ensures !init[k].Worked? && !About(init[k], addr) {
          assert events[k] == init[k];
        }
      }
    }
  }

  lemma FailedLastStep(init: seq<Event>, e: Event, addr: string, at: Time)
    ensures FailedLast(init + [e], addr, at) <==>
      e == Failed(addr, at) || (FailedLast(init, addr, at) && !About(e, addr))
  {
    var events := init + [e];
    if e == Failed(addr, at) {
      assert events[|init|] == e;
    }
    if i :| 0 <= i < |init| && init[i] == Failed(addr, at) && (forall k :: i < k < |init| ==> !About(init[k], addr)) {
      assert events[i] == Failed(addr, at);
      if !About(e, addr) {
        forall k | i < k < |events| ensures !About(events[k], addr) {
        }
      }
    }
    if i :| 0 <= i < |events| && events[i] == Failed(addr, at)
            && (forall k :: i < k < |events| ==> !About(events[k], addr)) {
      if i < |init| {
        assert init[i] == Failed(addr, at);
        assert events[|init|] == e;
        forall k | i < k < |init| ensures !About(init[k], addr) {
          assert events[k] == init[k];
        }
      }
    }
  }

  /** Under any interleaving the sticky address is never a bad one. */
  lemma {:induction false} StickyIsNeverBad(events: seq<Event>)
    ensures Run(events).Consistent()
  {
    if |events| > 0 {
      StickyIsNeverBad(events[..|events| - 1]);
    }
  }

  // ---------------------------------------------------------------- what the order is

  lemma {:induction false} OthersMeaning(l: Ledger, addrs: seq<string>, now: Time)
    ensures var r := Others(l, addrs, now);
      && (forall a :: a in r <==> a in addrs && a != l.lastOK && !l.Avoided(a, now))
      && (NoDup(addrs) ==> NoDup(r))
  {
    if |addrs| > 0 {
      var init, last := addrs[..|addrs| - 1], addrs[|addrs| - 1];
      OthersMeaning(l, init, now);
      assert addrs == init + [last];
      if NoDup(addrs) {
        assert last !in init;
      }
    }
  }

  /** `b` comes after `a` in the list. */
  ghost predicate Before(list: seq<string>, a: string, b: string) {
    exists i, j :: 0 <= i < j < |list| && list[i] == a && list[j] == b
  }

  lemma BeforeAppend(list: seq<string>, x: string, a: string, b: string)
    ensures Before(list + [x], a, b) <==> Before(list, a, b) || (a in list && b == x)
  {
    var longer := list + [x];
    if i, j :| 0 <= i < j < |list| && list[i] == a && list[j] == b {
      assert longer[i] == a && longer[j] == b;
    }
    if a in list && b == x {
      var i :| 0 <= i < |list| && list[i] == a;
      assert longer[i] == a && longer[|list|] == b;
    }
    if i, j :| 0 <= i < j < |longer| && longer[i] == a && longer[j] == b {
      assert list[i] == a && (j < |list| ==> list[j] == b);
    }
  }

  lemma BeforePrepend(x: string, list: seq<string>, a: string, b: string)
    requires a != x
    ensures Before([x] + list, a, b) <==> Before(list, a, b)
  {
    var longer := [x] + list;
    if i, j :| 0 <= i < j < |list| && list[i] == a && list[j] == b {
      assert longer[i + 1] == a && longer[j + 1] == b;
    }
    if i, j :| 0 <= i < j < |longer| && longer[i] == a && longer[j] == b {
      assert list[i - 1] == a && list[j - 1] == b;
    }
  }

  lemma {:induction false} OthersKeepOrder(l: Ledger, addrs: seq<string>, now: Time, a: string, b: string)
    requires a in Others(l, addrs, now) && b in Others(l, addrs, now)
    ensures Before(Others(l, addrs, now), a, b) <==> Before(addrs, a, b)
  {
    hide Before;
    if |addrs| > 0 {
      var init, last := addrs[..|addrs| - 1], addrs[|addrs| - 1];
      var r := Others(l, init, now);
      OthersMeaning(l, init, now);
      OthersMeaning(l, addrs, now);
      if a in r && b in r {
        OthersKeepOrder(l, init, now, a, b);
      }
      BeforeAreIn(init, a, b);
      BeforeAreIn(r, a, b);
      BeforeAppend(init, last, a, b);
      BeforeAppend(r, last, a, b);
      assert addrs == init + [last];
      assert r + [] == r;
    }
  }

  lemma BeforeAreIn(list: seq<string>, a: string, b: string)
    ensures Before(list, a, b) ==> a in list && b in list
  {
  }

  lemma OrderOf(l: Ledger, addrs: seq<string>, now: Time)
    requires NoDup(addrs) && l.Consistent()
    ensures
      var order := Order(l, addrs, now);
      var eligible := set a | a in addrs && !l.Avoided(a, now) && (a == l.lastOK ==> a != "");
      && NoDup(order)
      && Elems(order) == (if eligible == {} then Elems(addrs) else eligible)
      && (l.lastOK != "" && l.lastOK in addrs ==> order[..1] == [l.lastOK])
      && (|addrs| > 0 ==> |order| > 0)
  {
    OthersMeaning(l, addrs, now);
    var eligible := set a | a in addrs && !l.Avoided(a, now) && (a == l.lastOK ==> a != "");
    var all := Sticky(l, addrs, now) + Others(l, addrs, now);
    assert Elems(all) == eligible;
    if |all| > 0 {
      assert all[0] in Elems(all);
    } else {
      assert eligible == {};
    }
  }

  /** Some address worked last and did not fail since. */
  ghost predicate Settled(events: seq<Event>) {
    exists a :: a != "" && WorkedLast(events, a)
  }

  /** What may be in the order, read off the events.  (An empty address counts only while another one is
      settled on.) */
  ghost predicate Eligible(events: seq<Event>, a: string, now: Time) {
    !Shunned(events, a, now) && (a == "" ==> Settled(events))
  }

  lemma EligibleMeaning(events: seq<Event>, a: string, now: Time)
    ensures var l := Run(events);
      Eligible(events, a, now) <==> !l.Avoided(a, now) && (a == l.lastOK ==> a != "")
  {
    hide Run, Shunned, WorkedLast;
    AvoidedMeaning(events, a, now);
    var l := Run(events);
    if l.lastOK != "" {
      RunMeaning(events, l.lastOK, now);
    }
    forall b | b != "" ensures l.lastOK == b <==> WorkedLast(events, b) {
      RunMeaning(events, b, now);
    }
  }

  /** The order, for a duplicate-free list, read off the events: it holds, each once, the listed
      addresses that did not fail less than five seconds ago without anything heard of them since, or
      the whole list if there are none; and the one that worked last and did not fail since comes first
      if it is listed.  It is never empty for a non-empty list. */
  lemma OrderMeaning(events: seq<Event>, addrs: seq<string>, now: Time)
    requires NoDup(addrs)
    ensures
      var order := Order(Run(events), addrs, now);
      var eligible := set a | a in addrs && Eligible(events, a, now);
      && NoDup(order)
      && Elems(order) == (if eligible == {} then Elems(addrs) else eligible)
      && (forall a :: a in addrs && a != "" && WorkedLast(events, a) ==> order[..1] == [a])
      && (|addrs| > 0 ==> |order| > 0)
  {
    hide Run, Shunned, WorkedLast, Eligible, Order;
    StickyIsNeverBad(events);
    var l := Run(events);
    OrderOf(l, addrs, now);
    forall a ensures Eligible(events, a, now) <==> !l.Avoided(a, now) && (a == l.lastOK ==> a != "") {
      EligibleMeaning(events, a, now);
    }
    assert (set a | a in addrs && Eligible(events, a, now))
        == set a | a in addrs && !l.Avoided(a, now) && (a == l.lastOK ==> a != "");
    forall a | a in addrs && a != "" && WorkedLast(events, a)
      ensures Order(l, addrs, now)[..1] == [a]
    {
      RunMeaning(events, a, now);
    }
  }

  lemma OrderKeepsListOrder(events: seq<Event>, addrs: seq<string>, now: Time, a: string, b: string)
    requires NoDup(addrs)
    requires var order := Order(Run(events), addrs, now);
      a in order && b in order && a != Run(events).lastOK && b != Run(events).lastOK
    ensures Before(Order(Run(events), addrs, now), a, b) <==> Before(addrs, a, b)
  {
    hide Run, Before;
    var l := Run(events);
    var others := Others(l, addrs, now);
    OthersMeaning(l, addrs, now);
    if |Sticky(l, addrs, now) + others| > 0 {
      OthersKeepOrder(l, addrs, now, a, b);
      BeforePrepend(l.lastOK, others, a, b);
      assert [] + others == others;
    }
  }
}
