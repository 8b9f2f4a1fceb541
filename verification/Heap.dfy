/** Records as the program holds them: pointers to structures whose label maps and mount lists are
    themselves shared by reference.  Copying a structure copies its references; only the clone
    methods copy what they point to. */
module Heap {
  import opened Records

  /** A mutable cell: a pointer to a structure, a map or a slice. */
  class Ref<T> {
    var v: T

    constructor (v: T)
      ensures this.v == v
    {
      this.v := v;
    }
  }

  /** The `labels` of `base` are not used; the labels are behind the reference. */
  datatype NodeRec = NodeRec(base: Node, labels: Ref<Labels>)

  /** The `labels` and the mounts of `base` are not used; they are behind the references. */
  datatype SandboxRec = SandboxRec(base: Sandbox, labels: Ref<Labels>, mounts: Ref<seq<Mount>>)

  /** The `labels` of `base` are not used; the labels are behind the reference. */
  datatype VolumeRec = VolumeRec(base: Volume, labels: Ref<Labels>)

  /** The key and certificate bytes of `base` are not used; they are behind the references. */
  datatype ClusterRec = ClusterRec(base: Cluster, caKey: Ref<seq<bv8>>, caCert: Ref<seq<bv8>>)

  type NodePtr = Ref<NodeRec>
  type SandboxPtr = Ref<SandboxRec>
  type VolumePtr = Ref<VolumeRec>
  type KeyPtr = Ref<ApiKey>
  type ClusterPtr = Ref<ClusterRec>

  // ---------------------------------------------------------------- what a pointer denotes

  function NodeOf(p: NodePtr): Node
    reads p, p.v.labels
  {
    p.v.base.(labels := p.v.labels.v)
  }

  function SandboxOf(p: SandboxPtr): Sandbox
    reads p, p.v.labels, p.v.mounts
  {
    p.v.base.(labels := p.v.labels.v, spec := p.v.base.spec.(mounts := p.v.mounts.v))
  }

  function VolumeOf(p: VolumePtr): Volume
    reads p, p.v.labels
  {
    p.v.base.(labels := p.v.labels.v)
  }

  function ClusterOf(p: ClusterPtr): Cluster
    reads p, p.v.caKey, p.v.caCert
  {
    p.v.base.(caKey := p.v.caKey.v, caCert := p.v.caCert.v)
  }

  /** The pointers denote the given values, position by position. */
  ghost predicate AreNodes(ps: seq<NodePtr>, vs: seq<Node>)
    reads ps, set p | p in ps :: p.v.labels
  {
    |ps| == |vs| && forall i :: 0 <= i < |ps| ==> NodeOf(ps[i]) == vs[i]
  }

  ghost predicate AreSandboxes(ps: seq<SandboxPtr>, vs: seq<Sandbox>)
    reads ps, set p | p in ps :: p.v.labels
    reads set p | p in ps :: p.v.mounts
  {
    |ps| == |vs| && forall i :: 0 <= i < |ps| ==> SandboxOf(ps[i]) == vs[i]
  }

  /** The records, their labels and their mounts all belong to the given set of objects. */
  ghost predicate Within(ps: seq<SandboxPtr>, own: set<object>)
    reads ps
  {
    forall p :: p in ps ==> p in own && p.v.labels in own && p.v.mounts in own
  }

  lemma WithinAppend(ps: seq<SandboxPtr>, own: set<object>, p: SandboxPtr)
    requires Within(ps, own)
    ensures Within(ps + [p], own + {p as object, p.v.labels as object, p.v.mounts as object})
  {
  }

  // ---------------------------------------------------------------- deep copies

  method CloneNode(p: NodePtr) returns (c: NodePtr)
    ensures fresh(c) && fresh(c.v.labels)
    ensures NodeOf(c) == NodeOf(p)
  {
    var labels := new Ref(p.v.labels.v);
    c := new Ref(p.v.(labels := labels));
  }

  method CloneSandbox(p: SandboxPtr) returns (c: SandboxPtr)
    ensures fresh(c) && fresh(c.v.labels) && fresh(c.v.mounts)
    ensures SandboxOf(c) == SandboxOf(p)
  {
    var mounts := new Ref(p.v.mounts.v);
    var labels := new Ref(p.v.labels.v);
    c := new Ref(p.v.(labels := labels, mounts := mounts));
  }

  method CloneVolume(p: VolumePtr) returns (c: VolumePtr)
    ensures fresh(c) && fresh(c.v.labels)
    ensures VolumeOf(c) == VolumeOf(p)
  {
    var labels := new Ref(p.v.labels.v);
    c := new Ref(p.v.(labels := labels));
  }

  method CloneKey(p: KeyPtr) returns (c: KeyPtr)
    ensures fresh(c)
    ensures c.v == p.v
  {
    c := new Ref(p.v);
  }

  method CloneCluster(p: ClusterPtr) returns (c: ClusterPtr)
    ensures fresh(c) && fresh(c.v.caKey) && fresh(c.v.caCert)
    ensures ClusterOf(c) == ClusterOf(p)
  {
    var caKey := new Ref(p.v.caKey.v);
    var caCert := new Ref(p.v.caCert.v);
    c := new Ref(p.v.(caKey := caKey, caCert := caCert));
  }
}
