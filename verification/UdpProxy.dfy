/** udpproxy/udpproxy.go: frontends with a mutable list of backend objects. */
module UdpProxy {
  import opened Text
  import opened Sorting

  /** net.ResolveUDPAddr; None is its error. */
  type Resolve = string -> Option<string>

  class Backend {
    const name: string
    const addr: string
    var sent: nat
    var touched: bool

    constructor (name: string, addr: string)
      ensures this.name == name && this.addr == addr && sent == 0 && !touched
    {
      this.name, this.addr, sent, touched := name, addr, 0, false;
    }

    method Touch()
      modifies `touched
      ensures touched
    {
      touched := true;
    }

    /** The counter of Send. */
    method Send()
      modifies `sent
      ensures sent == old(sent) + 1
    {
      sent := sent + 1;
    }
  }

  // ---- lists of backends ----

  function NamesOf(bs: seq<Backend>): seq<string> {
    seq(|bs|, i requires 0 <= i < |bs| => bs[i].name)
  }

  /** The backends with a name of the set, in their order. */
  ghost function Keep(bs: seq<Backend>, names: set<string>): seq<Backend> {
    if bs == [] then []
    else Keep(bs[..|bs| - 1], names) + if bs[|bs| - 1].name in names then [bs[|bs| - 1]] else []
  }

  ghost function Touched(bs: seq<Backend>): seq<Backend>
    reads bs
  {
    if bs == [] then []
    else Touched(bs[..|bs| - 1]) + if bs[|bs| - 1].touched then [bs[|bs| - 1]] else []
  }

  lemma {:induction false} TouchedIsKept(bs: seq<Backend>, names: set<string>)
    requires forall i :: 0 <= i < |bs| ==> (bs[i].touched <==> bs[i].name in names)
    ensures Touched(bs) == Keep(bs, names)
  {
    if bs != [] { TouchedIsKept(bs[..|bs| - 1], names); }
  }

  lemma {:induction false} KeepAppend(a: seq<Backend>, b: seq<Backend>, names: set<string>)
    requires forall i :: 0 <= i < |b| ==> b[i].name in names
    ensures Keep(a + b, names) == Keep(a, names) + b
    decreases |b|
  {
    if b == [] {
      assert a + b == a;
    } else {
      var n := |b| - 1;
      assert (a + b)[..|a| + n] == a + b[..n];
      KeepAppend(a, b[..n], names);
      assert b == b[..n] + [b[n]];
    }
  }

  class Frontend {
    const name: string
    const multicast: bool
    var backends: seq<Backend>

    /** Backend names are pairwise distinct, and so are the objects. */
    ghost predicate Valid() reads this { Distinct(NamesOf(backends)) }

    constructor (name: string, multicast: bool)
      ensures this.name == name && this.multicast == multicast && backends == [] && Valid()
    {
      this.name, this.multicast, backends := name, multicast, [];
    }

    method ClearTouch()
      modifies backends
      ensures backends == old(backends) && forall b :: b in backends ==> !b.touched && b.sent == old(b.sent)
    {
      for i := 0 to |backends|
        invariant forall k :: 0 <= k < i ==> !backends[k].touched
        invariant forall b :: b in backends ==> b.sent == old(b.sent)
      {
        backends[i].touched := false;
      }
    }

    /** Finds the backend of this name, or adds a new one if the address resolves. */
    method AddBackend(name: string, addr: string, resolve: Resolve) returns (be: Backend?)
      modifies `backends
      ensures name in NamesOf(old(backends)) ==> backends == old(backends) && be in old(backends) && be.name == name
      ensures name !in NamesOf(old(backends)) && resolve(addr).None? ==> backends == old(backends) && be == null
      ensures name !in NamesOf(old(backends)) && resolve(addr).Some? ==>
                be != null && fresh(be) && be.name == name && be.addr == resolve(addr).value && be.sent == 0
                && backends == old(backends) + [be]
    {
      for i := 0 to |backends|
        invariant backends == old(backends)
        invariant forall k :: 0 <= k < i ==> backends[k].name != name
      {
        if backends[i].name == name {
          assert NamesOf(backends)[i] == name;
          return backends[i];
        }
      }
      var beAddr := resolve(addr);
      if beAddr.None? { return null; }
      be := new Backend(name, beAddr.value);
      backends := backends + [be];
    }

    method RemoveUntouched()
      modifies `backends
      ensures backends == Touched(old(backends))
    {
      var touched := [];
      for i := 0 to |backends|
        invariant backends == old(backends) && touched == Touched(backends[..i])
      {
        assert backends[..i + 1][..i] == backends[..i];
        if backends[i].touched { touched := touched + [backends[i]]; }
      }
      assert backends[..|backends|] == backends;
      backends := touched;
    }

    /** RoundRobin sends to the first backend, always; an empty list would be an index out of range. */
    method RoundRobin()
      requires Valid() && backends != []
      modifies {backends[0]}
      ensures backends[0].sent == old(backends[0].sent) + 1 && backends[0].touched == old(backends[0].touched)
    {
      backends[0].Send();
    }

    method Multicast()
      requires Valid()
      modifies backends
      ensures forall b :: b in backends ==> b.sent == old(b.sent) + 1 && b.touched == old(b.touched)
    {
      ObjectsDistinct(backends);
      for i := 0 to |backends|
        invariant forall k :: 0 <= k < |backends| ==> backends[k].sent == old(backends[k].sent) + if k < i then 1 else 0
        invariant forall b :: b in backends ==> b.touched == old(b.touched)
      {
        backends[i].Send();
      }
    }
  }

  lemma ObjectsDistinct(bs: seq<Backend>)
    requires Distinct(NamesOf(bs))
    ensures forall i, j :: 0 <= i < j < |bs| ==> bs[i] != bs[j]
  {
    forall i, j | 0 <= i < j < |bs| ensures bs[i] != bs[j] { assert NamesOf(bs)[i] != NamesOf(bs)[j]; }
  }
}
