/** The list of manager addresses a node keeps, and how control-plane answers update it. */
module Endpoints {
  import opened Records
  import opened Seqs

  // ---------------------------------------------------------------- merging

  /** The non-empty addresses of the list that are not among those seen, each once, in the order of
      their first occurrence. */
  function New(seen: set<string>, list: seq<string>): seq<string>
    decreases list
  {
    if |list| == 0 then []
    else if list[0] == "" || list[0] in seen then New(seen, list[1..])
    else [list[0]] + New(seen + {list[0]}, list[1..])
  }

  function Flatten(lists: seq<seq<string>>): seq<string> {
    if |lists| == 0 then [] else Flatten(lists[..|lists| - 1]) + lists[|lists| - 1]
  }

  function Merge(prefer: string, lists: seq<seq<string>>): seq<string> {
    New({}, [prefer] + Flatten(lists))
  }

  /** Looking at one more address. */
  lemma NewNext(seen: set<string>, list: seq<string>, a: string)
    ensures New(seen, list + [a])
         == New(seen, list) + if a == "" || a in seen || a in list then [] else [a]
  {
    NewAppend(seen, list, [a]);
    assert New(seen + Elems(list), [a][1..]) == [];
    assert New(seen + Elems(list) + {a}, [a][1..]) == [];
  }

  lemma {:induction false} NewAppend(seen: set<string>, x: seq<string>, y: seq<string>)
    ensures New(seen, x + y) == New(seen, x) + New(seen + Elems(x), y)
    decreases x
  {
    if |x| == 0 {
      assert x + y == y && seen + Elems(x) == seen;
    } else {
      var rest := x[1..];
      assert (x + y)[1..] == rest + y;
      assert x == [x[0]] + rest;
      assert Elems(x) == {x[0]} + Elems(rest);
      if x[0] == "" || x[0] in seen {
        NewAppend(seen, rest, y);
        NewIgnoresEmpty(seen + Elems(rest), seen + Elems(x), y);
      } else {
        NewAppend(seen + {x[0]}, rest, y);
        assert seen + {x[0]} + Elems(rest) == seen + Elems(x);
      }
    }
  }

  lemma {:induction false} NewIgnoresEmpty(seen: set<string>, seen': set<string>, y: seq<string>)
    requires forall a :: a != "" ==> (a in seen <==> a in seen')
    ensures New(seen, y) == New(seen', y)
    decreases y
  {
    if |y| > 0 {
      NewIgnoresEmpty(seen, seen', y[1..]);
      NewIgnoresEmpty(seen + {y[0]}, seen' + {y[0]}, y[1..]);
    }
  }

  /** Adds one address unless it is empty or was seen. */
  method AddSeen(a: string, seen: set<string>, out: seq<string>, ghost done: seq<string>)
    returns (seen': set<string>, out': seq<string>)
    requires out == New({}, done) && seen == Elems(done) - {""}
    ensures out' == New({}, done + [a]) && seen' == Elems(done + [a]) - {""}
  {
    NewNext({}, done, a);
    assert a in done <==> a in Elems(done);
    assert Elems(done + [a]) == Elems(done) + {a};
    if a == "" || a in seen {
      return seen, out;
    }
    return seen + {a}, out + [a];
  }

  /** The merge: two nested loops that add what was not seen yet. */
  method MergeManagerAddrs(prefer: string, lists: seq<seq<string>>) returns (out: seq<string>)
    ensures out == Merge(prefer, lists)
  {
    var seen: set<string> := {};
    out := [];
    ghost var done: seq<string> := [];
    seen, out := AddSeen(prefer, seen, out, done);
    done := [prefer];
    assert [] + [prefer] == done;
    for i := 0 to |lists|
      invariant done == [prefer] + Flatten(lists[..i])
      invariant out == New({}, done) && seen == Elems(done) - {""}
    {
      for j := 0 to |lists[i]|
        invariant done == [prefer] + Flatten(lists[..i]) + lists[i][..j]
        invariant out == New({}, done) && seen == Elems(done) - {""}
      {
        seen, out := AddSeen(lists[i][j], seen, out, done);
        done := done + [lists[i][j]];
        assert lists[i][..j + 1] == lists[i][..j] + [lists[i][j]];
      }
      assert lists[..i + 1][..i] == lists[..i] && lists[i][..|lists[i]|] == lists[i];
    }
    assert lists[..|lists|] == lists;
  }

  // ---------------------------------------------------------------- what merging means

  /** Where an address occurs first. */
  function FirstIndex(list: seq<string>, a: string): nat
    requires a in list
  {
    if list[0] == a then 0 else FirstIndex(list[1..], a) + 1
  }

  lemma {:induction false} FirstIndexMeaning(list: seq<string>, a: string)
    requires a in list
    ensures var i := FirstIndex(list, a);
      i < |list| && list[i] == a && a !in list[..i]
  {
    if list[0] != a {
      FirstIndexMeaning(list[1..], a);
      assert list == [list[0]] + list[1..];
    }
  }

  lemma FirstIndexShift(head: string, rest: seq<string>, a: string)
    requires a in rest && a != head
    ensures FirstIndex([head] + rest, a) == FirstIndex(rest, a) + 1
  {
    assert ([head] + rest)[1..] == rest;
  }

  /** The result holds exactly the new non-empty addresses, each once. */
  lemma {:induction false} NewMeaning(seen: set<string>, list: seq<string>)
    ensures NoDup(New(seen, list))
    ensures forall a :: a in New(seen, list) <==> a in list && a != "" && a !in seen
    decreases list
  {
    if |list| > 0 {
      var rest := list[1..];
      assert list == [list[0]] + rest;
      if list[0] == "" || list[0] in seen {
        NewMeaning(seen, rest);
      } else {
        NewMeaning(seen + {list[0]}, rest);
      }
    }
  }

  lemma NewUnfolds(seen: set<string>, list: seq<string>)
    requires New(seen, list) != []
    ensures list != [] && list == [list[0]] + list[1..]
    ensures New(seen, list)
         == if list[0] == "" || list[0] in seen then New(seen, list[1..])
            else [list[0]] + New(seen + {list[0]}, list[1..])
  {
  }

  /** It is ordered as the addresses first occur. */
  lemma {:induction false} NewKeepsOrder(seen: set<string>, list: seq<string>, i: nat, j: nat)
    requires i < j < |New(seen, list)|
    ensures var r := New(seen, list);
      r[i] in list && r[j] in list && FirstIndex(list, r[i]) < FirstIndex(list, r[j])
    decreases list
  {
    hide FirstIndex, New, NoDup, Elems;
    NewUnfolds(seen, list);
    var r, head, rest := New(seen, list), list[0], list[1..];
    NewMeaning(seen, list);
    assert r[i] in r && r[j] in r;
    if head == "" || head in seen {
      NewKeepsOrder(seen, rest, i, j);
      NewMeaning(seen, rest);
      FirstIndexShift(head, rest, r[i]);
      FirstIndexShift(head, rest, r[j]);
    } else {
      NewMeaning(seen + {head}, rest);
      var tail := New(seen + {head}, rest);
      assert r[j] == tail[j - 1] && tail[j - 1] in tail;
      FirstIndexShift(head, rest, r[j]);
      if i == 0 {
        FirstIndexOfHead(head, rest);
      } else {
        NewKeepsOrder(seen + {head}, rest, i - 1, j - 1);
        assert r[i] == tail[i - 1] && tail[i - 1] in tail;
        FirstIndexShift(head, rest, r[i]);
      }
    }
  }

  lemma FirstIndexOfHead(head: string, rest: seq<string>)
    ensures FirstIndex([head] + rest, head) == 0
  {
  }

  /** A merge starts with the preferred address and keeps every non-empty address once, in the order of
      first occurrence. */
  lemma MergeMeaning(prefer: string, lists: seq<seq<string>>)
    ensures var r, all := Merge(prefer, lists), [prefer] + Flatten(lists);
      && NoDup(r)
      && (forall a :: a in r <==> a in all && a != "")
      && (prefer != "" ==> r[..1] == [prefer])
      && (forall i, j :: 0 <= i < j < |r| ==> FirstIndex(all, r[i]) < FirstIndex(all, r[j]))
  {
    var all := [prefer] + Flatten(lists);
    NewMeaning({}, all);
    var r := Merge(prefer, lists);
    forall i, j | 0 <= i < j < |r| ensures FirstIndex(all, r[i]) < FirstIndex(all, r[j]) {
      NewKeepsOrder({}, all, i, j);
    }
  }

  // ---------------------------------------------------------------- merging again

  lemma {:induction false} NothingNew(seen: set<string>, list: seq<string>)
    requires forall a :: a in list ==> a == "" || a in seen
    ensures New(seen, list) == []
  {
    if |list| > 0 {
      assert list[0] in list && forall a :: a in list[1..] ==> a in list;
      NothingNew(seen, list[1..]);
    }
  }

  lemma {:induction false} AllNew(seen: set<string>, list: seq<string>)
    requires NoDup(list) && forall a :: a in list ==> a != "" && a !in seen
    ensures New(seen, list) == list
    decreases list
  {
    if |list| > 0 {
      var rest := list[1..];
      assert list == [list[0]] + rest;
      assert forall a :: a in rest ==> a in list && a != list[0];
      AllNew(seen + {list[0]}, rest);
    }
  }

  /** Merging a merge with what it was made from changes nothing. */
  lemma MergeAgain(x: seq<string>, y: seq<string>)
    ensures New({}, x + New({}, x + y)) == New({}, x + y)
  {
    hide New, FirstIndex;
    NewAppend({}, x, y);
    assert {} + Elems(x) == Elems(x);
    var a, b := New({}, x), New(Elems(x), y);
    NewMeaning({}, x);
    NewMeaning(Elems(x), y);
    NewAppend({}, x, a + b);
    NewAppend(Elems(x), a, b);
    assert forall e :: e in a ==> e in Elems(x);
    NothingNew(Elems(x), a);
    assert Elems(x) + Elems(a) == Elems(x);
    AllNew(Elems(x), b);
  }

  // ---------------------------------------------------------------- what a manager answers

  /** What a manager's replication layer knows: the leader's address, and its own. */
  datatype RaftView = RaftView(leader: string, advertise: string)

  /** What an answer says about managers, given the addresses of the peers in some order. */
  function ManagersOf(raft: Option<RaftView>, peers: seq<string>): (string, seq<string>) {
    if raft.None? then ("", [])
    else (raft.value.leader, Merge(raft.value.leader, [peers, [raft.value.advertise]]))
  }

  method ManagerEndpoints(raft: Option<RaftView>, peers: seq<Peer>) returns (leader: string, addrs: seq<string>)
    ensures (leader, addrs) == ManagersOf(raft, Addresses(peers))
  {
    if raft.None? {
      return "", [];
    }
    leader := raft.value.leader;
    var seen: set<string> := {};
    addrs := [];
    ghost var done: seq<string> := [];
    seen, addrs := AddSeen(leader, seen, addrs, done);
    done := [leader];
    assert [] + [leader] == done;
    ghost var list := Addresses(peers);
    for i := 0 to |peers|
      invariant done == [leader] + list[..i]
      invariant addrs == New({}, done) && seen == Elems(done) - {""}
    {
      seen, addrs := AddSeen(peers[i].grpcAddr, seen, addrs, done);
      done := done + [peers[i].grpcAddr];
      assert list[..i + 1] == list[..i] + [list[i]];
    }
    assert list[..|peers|] == list;
    seen, addrs := AddSeen(raft.value.advertise, seen, addrs, done);
    FlattenTwo(list, [raft.value.advertise]);
    assert [leader] + (list + [raft.value.advertise]) == done + [raft.value.advertise];
  }

  /** An answer names the leader, and lists the leader, the peers and the manager's own address, each where it
      occurs first; a process without replication answers nothing. */
  lemma ManagersMeaning(raft: Option<RaftView>, peers: seq<string>)
    ensures
      var (leader, r) := ManagersOf(raft, peers);
      if raft == None then leader == "" && r == []
      else
        var all := [raft.value.leader] + peers + [raft.value.advertise];
        && leader == raft.value.leader && NoDup(r)
        && (forall a :: a in r <==> a in all && a != "")
        && (forall i, j :: 0 <= i < j < |r| ==> FirstIndex(all, r[i]) < FirstIndex(all, r[j]))
  {
    hide FirstIndex, Merge;
    if raft.Some? {
      FlattenTwo(peers, [raft.value.advertise]);
      MergeMeaning(raft.value.leader, [peers, [raft.value.advertise]]);
      assert [raft.value.leader] + (peers + [raft.value.advertise])
          == [raft.value.leader] + peers + [raft.value.advertise];
    }
  }

  function Addresses(peers: seq<Peer>): (addrs: seq<string>)
    ensures |addrs| == |peers| && forall i :: 0 <= i < |peers| ==> addrs[i] == peers[i].grpcAddr
  {
    seq(|peers|, i requires 0 <= i < |peers| => peers[i].grpcAddr)
  }

  // ---------------------------------------------------------------- applying answers

  /** The persisted state of the node, as far as managers go. */
  datatype Known = Known(managerAddr: string, managerAddrs: seq<string>)

  function Applied(s: Known, leader: string, addrs: seq<string>): Known {
    if leader == "" && |addrs| == 0 then s
    else
      var addr := if leader != "" then leader else s.managerAddr;
      Known(addr, Merge(addr, [addrs, s.managerAddrs]))
  }

  class IdentityStore {
    var state: Known

    constructor (state: Known)
      ensures this.state == state
    {
      this.state := state;
    }

    /** Persists what an answer says about managers; `saved` tells whether persisting works. */
    method ApplyManagerEndpoints(leader: string, addrs: seq<string>, saved: bool)
      modifies this
      ensures state == if saved then Applied(old(state), leader, addrs) else old(state)
    {
      if leader == "" && |addrs| == 0 {
        return;
      }
      var newState, changed := state, false;
      if leader != "" && newState.managerAddr != leader {
        newState, changed := newState.(managerAddr := leader), true;
      }
      var merged := MergeManagerAddrs(newState.managerAddr, [addrs, state.managerAddrs]);
      if merged != newState.managerAddrs {
        newState, changed := newState.(managerAddrs := merged), true;
      }
      if !changed {
        return;
      }
      if saved {
        state := newState;
      }
    }
  }

  /** Applying the same answer twice is the same as applying it once. */
  lemma ApplyingIsIdempotent(s: Known, leader: string, addrs: seq<string>)
    ensures Applied(Applied(s, leader, addrs), leader, addrs) == Applied(s, leader, addrs)
  {
    var once := Applied(s, leader, addrs);
    if once != s {
      FlattenTwo(addrs, s.managerAddrs);
      FlattenTwo(addrs, once.managerAddrs);
      var x := [once.managerAddr] + addrs;
      assert [once.managerAddr] + (addrs + s.managerAddrs) == x + s.managerAddrs;
      assert [once.managerAddr] + (addrs + once.managerAddrs) == x + once.managerAddrs;
      MergeAgain(x, s.managerAddrs);
    }
  }

  lemma FlattenTwo(a: seq<string>, b: seq<string>)
    ensures Flatten([a, b]) == a + b
  {
    assert [a, b][..1] == [a] && [a][..0] == [];
    assert Flatten([a]) == Flatten([]) + a;
    assert [] + a == a;
  }

  /** An empty answer changes nothing.  Any other makes the answered leader, if there is one, the current
      manager, and makes the node forget no address: its list holds the current manager, then the answered
      addresses, then the known ones, each where it occurs first, and no empty one. */
  lemma NothingIsForgotten(s: Known, leader: string, addrs: seq<string>)
    ensures var s' := Applied(s, leader, addrs);
      if leader == "" && addrs == [] then s' == s
      else
        var r, all := s'.managerAddrs, [s'.managerAddr] + addrs + s.managerAddrs;
        && s'.managerAddr == (if leader == "" then s.managerAddr else leader)
        && NoDup(r)
        && (forall a :: a in r <==> a in all && a != "")
        && (s'.managerAddr != "" ==> r[..1] == [s'.managerAddr])
        && (forall i, j :: 0 <= i < j < |r| ==> FirstIndex(all, r[i]) < FirstIndex(all, r[j]))
  {
    hide FirstIndex, Merge;
    if leader != "" || addrs != [] {
      var s' := Applied(s, leader, addrs);
      FlattenTwo(addrs, s.managerAddrs);
      MergeMeaning(s'.managerAddr, [addrs, s.managerAddrs]);
      assert [s'.managerAddr] + (addrs + s.managerAddrs) == [s'.managerAddr] + addrs + s.managerAddrs;
    }
  }

  /** A node that applies the answer of a manager knows, beside what it knew, exactly the addresses of
      the leader, of every peer and of that manager, whatever the order of the peers; and the leader
      comes first if there is one. */
  lemma AnswerTeachesManagers(s: Known, raft: RaftView, peers: seq<Peer>)
    requires ManagersOf(Some(raft), Addresses(peers)) != ("", [])
    ensures
      var (leader, addrs) := ManagersOf(Some(raft), Addresses(peers));
      var s' := Applied(s, leader, addrs);
      && (forall a :: a in s'.managerAddrs <==>
            && a != ""
            && (|| a == raft.leader || a == raft.advertise || (exists p :: p in peers && p.grpcAddr == a)
                || a in s.managerAddrs || (raft.leader == "" && a == s.managerAddr)))
      && (raft.leader != "" ==> s'.managerAddr == raft.leader && s'.managerAddrs[..1] == [raft.leader])
  {
    var list := Addresses(peers);
    var (leader, addrs) := ManagersOf(Some(raft), list);
    FlattenTwo(list, [raft.advertise]);
    MergeMeaning(leader, [list, [raft.advertise]]);
    assert leader in [leader] + (list + [raft.advertise]);
    assert raft.advertise in [leader] + (list + [raft.advertise]);
    forall a
      ensures a in list <==> exists p :: p in peers && p.grpcAddr == a
    {
      if p :| p in peers && p.grpcAddr == a {
        var i :| 0 <= i < |peers| && peers[i] == p;
        assert list[i] == a;
      }
      if a in list {
        var i :| 0 <= i < |list| && list[i] == a;
        assert peers[i] in peers;
      }
    }
    NothingIsForgotten(s, leader, addrs);
  }
}
