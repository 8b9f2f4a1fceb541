/** Small facts about sequences and maps used by several components. */
module Seqs {

  /** No element occurs twice. */
  ghost predicate NoDup<T>(s: seq<T>) {
    forall i, j :: 0 <= i < j < |s| ==> s[i] != s[j]
  }

  /** The elements as a set. */
  ghost function Elems<T>(s: seq<T>): set<T> {
    set x | x in s
  }

  /** A duplicate-free sequence is as long as its element set. */
  lemma {:induction false} NoDupLength<T>(s: seq<T>)
    requires NoDup(s)
    ensures |s| == |Elems(s)|
  {
    if |s| > 0 {
      var t := s[..|s| - 1];
      NoDupLength(t);
      assert s == t + [s[|s| - 1]];
      assert Elems(s) == Elems(t) + {s[|s| - 1]};
    }
  }

  /** An order in which a loop over the keys of a map may visit them. */
  ghost predicate IsKeyOrder(keys: seq<string>, domain: set<string>) {
    NoDup(keys) && Elems(keys) == domain
  }

  lemma NoKeys()
    ensures IsKeyOrder([], {})
  {
  }

  lemma KeyOrderAppend(keys: seq<string>, domain: set<string>, key: string)
    requires IsKeyOrder(keys, domain) && key !in domain
    ensures IsKeyOrder(keys + [key], domain + {key})
  {
    assert forall k :: k in keys ==> k in Elems(keys);
  }

  lemma OrderMembers(keys: seq<string>, domain: set<string>)
    requires IsKeyOrder(keys, domain)
    ensures forall k :: k in keys <==> k in domain
  {
    assert forall k :: k in Elems(keys) <==> k in keys;
  }

  /** Some order of a set of keys. */
  lemma SomeOrder(domain: set<string>) returns (keys: seq<string>)
    ensures IsKeyOrder(keys, domain)
  {
    keys := [];
    var rest := domain;
    while rest != {}
      invariant rest <= domain && IsKeyOrder(keys, domain - rest)
    {
      var k :| k in rest;
      KeyOrderAppend(keys, domain - rest, k);
      keys, rest := keys + [k], rest - {k};
    }
  }

  /** Some order that visits the given key last. */
  lemma OrderEndingIn(domain: set<string>, key: string) returns (keys: seq<string>)
    requires key in domain
    ensures IsKeyOrder(keys, domain) && |keys| > 0 && keys[|keys| - 1] == key
  {
    var init := SomeOrder(domain - {key});
    KeyOrderAppend(init, domain - {key}, key);
    keys := init + [key];
  }

  /** The values of a map, listed in a given key order. */
  function Listing<T>(keys: seq<string>, m: map<string, T>): (list: seq<T>)
    requires forall k :: k in keys ==> k in m
    ensures |list| == |keys|
    ensures forall i :: 0 <= i < |keys| ==> list[i] == m[keys[i]]
  {
    seq(|keys|, i requires 0 <= i < |keys| => m[keys[i]])
  }
}
