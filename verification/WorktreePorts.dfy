/** Port blocks for worktrees: the cyclic search and the validation of
`scripts/bootstrap-worktree.py`. */
module WorktreePorts {
  import opened Options

  const FIRST := 20000
  const BLOCKS := 10000

  datatype Ports = Ports(api: int, web: int, postgres: int)

  function AsList(p: Ports): seq<int> {
    [p.api, p.web, p.postgres]
  }

  /** What a probe of the host says of a port: bindable, in use, or not permitted to tell. */
  type Probe = int -> Option<bool>

  function BlockAt(base: int): Ports {
    Ports(base, base + 1, base + 2)
  }

  /** No known collision: not published by Docker and not refused by the host. */
  predicate Free(base: int, docker: Option<set<int>>, probe: Probe) {
    forall i :: 0 <= i < 3 ==>
      && !(docker.Some? && AsList(BlockAt(base))[i] in docker.value)
      && probe(AsList(BlockAt(base))[i]) != Some(false)
  }

  /** Over the three ports themselves. */
  lemma FreeSays(base: int, docker: Option<set<int>>, probe: Probe)
    ensures Free(base, docker, probe) <==> forall port :: base <= port < base + 3 ==>
      (docker.Some? ==> port !in docker.value) && probe(port) != Some(false)
  {
    var ports := AsList(BlockAt(base));
    assert ports[0] == base && ports[1] == base + 1 && ports[2] == base + 2;
    if Free(base, docker, probe) {
      forall port | base <= port < base + 3
        ensures (docker.Some? ==> port !in docker.value) && probe(port) != Some(false)
      {
        assert ports[port - base] == port;
      }
    }
  }

  /** The `k`-th candidate for an identity, as the source computes it. */
  function Candidate(identity: nat, k: nat): int {
    var start := FIRST + (identity % BLOCKS) * 3;
    FIRST + (start - FIRST + 3 * k) % 30000
  }

  lemma CandidateIsABlock(identity: nat, k: nat)
    ensures Candidate(identity, k) == FIRST + 3 * ((identity % BLOCKS + k) % BLOCKS)
  {
    var x := identity % BLOCKS + k;
    TripleModulo(x);
  }

  lemma TripleModulo(x: nat)
    ensures (3 * x) % 30000 == 3 * (x % 10000)
  {
    var q := x / 10000;
    assert x == q * 10000 + x % 10000;
    assert 3 * x == q * 30000 + 3 * (x % 10000);
    ModuloIs(3 * x, 30000, q, 3 * (x % 10000));
  }

  lemma ModuloIs(a: nat, m: nat, q: nat, r: nat)
    requires m > 0 && a == q * m + r && r < m
    ensures a % m == r
  {
    var d := a / m - q;
    assert a % m == r - d * m;
    assert d >= 1 ==> d * m >= m;
    assert d <= -1 ==> 0 - d >= 1 && (0 - d) * m >= m;
  }

  lemma ShiftedModulo(b: nat, k: nat)
    requires b < BLOCKS && k < BLOCKS
    ensures (b + k) % BLOCKS == if b + k < BLOCKS then b + k else b + k - BLOCKS
  {
  }

  lemma CandidatesAreDistinct(identity: nat, j: nat, k: nat)
    requires j < BLOCKS && k < BLOCKS && Candidate(identity, j) == Candidate(identity, k)
    ensures j == k
  {
    CandidateIsABlock(identity, j);
    CandidateIsABlock(identity, k);
    ShiftedModulo(identity % BLOCKS, j);
    ShiftedModulo(identity % BLOCKS, k);
  }

  /** Every aligned block is visited exactly once in the 10000 tries, whatever the identity. */
  lemma EveryBlockIsVisitedOnce(identity: nat, block: nat)
    requires block < BLOCKS
    ensures exists k :: 0 <= k < BLOCKS && Candidate(identity, k) == FIRST + 3 * block
    ensures forall j, k ::
      0 <= j < BLOCKS && 0 <= k < BLOCKS && Candidate(identity, j) == Candidate(identity, k) ==> j == k
  {
    var b := identity % BLOCKS;
    var k := if block >= b then block - b else block - b + BLOCKS;
    CandidateIsABlock(identity, k);
    ShiftedModulo(b, k);
    forall j, k | 0 <= j < BLOCKS && 0 <= k < BLOCKS && Candidate(identity, j) == Candidate(identity, k)
      ensures j == k
    {
      CandidatesAreDistinct(identity, j, k);
    }
  }

  /** The `k`-th candidate is free and no earlier one is. */
  predicate FirstFree(identity: nat, k: nat, docker: Option<set<int>>, probe: Probe) {
    && k < BLOCKS
    && Free(Candidate(identity, k), docker, probe)
    && forall j :: 0 <= j < k ==> !Free(Candidate(identity, j), docker, probe)
  }

  /** `allocate_ports`: the first free block in cyclic order from the identity's own, and nothing
      only when no block of the range is free. */
  method AllocatePorts(identity: nat, docker: Option<set<int>>, probe: Probe) returns (r: Option<Ports>)
    ensures r.Some? ==> exists k :: FirstFree(identity, k, docker, probe) && r.value == BlockAt(Candidate(identity, k))
    ensures r.None? <==> forall block :: 0 <= block < BLOCKS ==> !Free(FIRST + 3 * block, docker, probe)
    ensures r.Some? ==>
      && 20000 <= r.value.api < 50000 && r.value.web == r.value.api + 1 && r.value.postgres == r.value.api + 2
      && (forall port :: r.value.api <= port < r.value.api + 3 ==>
            (docker.Some? ==> port !in docker.value) && probe(port) != Some(false))
  {
    var start := FIRST + (identity % BLOCKS) * 3;
    var offset := 0;
    while offset < 30000
      invariant 0 <= offset <= 30000 && offset % 3 == 0
      invariant forall j :: 0 <= j < offset / 3 ==> !Free(Candidate(identity, j), docker, probe)
    {
      var candidate := FIRST + (start - FIRST + offset) % 30000;
      assert candidate == Candidate(identity, offset / 3);
      if Free(candidate, docker, probe) {
        r := Some(BlockAt(candidate));
        CandidateIsABlock(identity, offset / 3);
        assert FirstFree(identity, offset / 3, docker, probe);
        assert Free(FIRST + 3 * ((identity % BLOCKS + offset / 3) % BLOCKS), docker, probe);
        FreeSays(candidate, docker, probe);
        return;
      }
      offset := offset + 3;
    }
    forall block | 0 <= block < BLOCKS
      ensures !Free(FIRST + 3 * block, docker, probe)
    {
      EveryBlockIsVisitedOnce(identity, block);
    }
    r := None;
  }

  /** Blocks of two worktrees coincide or do not touch. */
  lemma BlocksAreEqualOrDisjoint(i: nat, j: nat, a: nat, b: nat)
    ensures Candidate(a, i) == Candidate(b, j) ||
      forall m, n :: 0 <= m < 3 && 0 <= n < 3 ==>
        AsList(BlockAt(Candidate(a, i)))[m] != AsList(BlockAt(Candidate(b, j)))[n]
  {
    CandidateIsABlock(a, i);
    CandidateIsABlock(b, j);
  }

  // ------------------------------------------------------------------ validation

  datatype Verdict = Invalid | Accepted(fullyChecked: bool)

  predicate InProject(project: Option<set<int>>, port: int) {
    project.Some? && port in project.value
  }

  predicate PortAcceptable(port: int, docker: Option<set<int>>, project: Option<set<int>>, probe: Probe) {
    && 1 <= port <= 65535
    && !(docker.Some? && port in docker.value)
    && (probe(port) == Some(false) ==> InProject(project, port))
  }

  predicate PortProven(port: int, project: Option<set<int>>, probe: Probe) {
    probe(port) == Some(true) || InProject(project, port)
  }

  predicate Distinct(p: Ports) {
    p.api != p.web && p.web != p.postgres && p.api != p.postgres
  }

  /** Distinct ports in range, none with a known collision. */
  predicate PortsAcceptable(p: Ports, docker: Option<set<int>>, project: Option<set<int>>, probe: Probe) {
    Distinct(p) && forall i :: 0 <= i < 3 ==> PortAcceptable(AsList(p)[i], docker, project, probe)
  }

  /** Over the ports themselves: three different ones, none of them out of range, published by another
      container, or held by anything but the project's own containers. */
  lemma AcceptableSays(p: Ports, docker: Option<set<int>>, project: Option<set<int>>, probe: Probe)
    ensures PortsAcceptable(p, docker, project, probe) <==>
      && p.api != p.web && p.api != p.postgres && p.web != p.postgres
      && (forall i :: 0 <= i < 3 ==>
            var port := [p.api, p.web, p.postgres][i];
            && 1 <= port <= 65535
            && (docker.Some? ==> port !in docker.value)
            && (probe(port) == Some(false) ==> project.Some? && port in project.value))
  {
    assert AsList(p) == [p.api, p.web, p.postgres];
  }

  /** `validate_ports`: accepts exactly distinct ports without a known collision, and says whether
      every check was authoritative. */
  method ValidatePorts(p: Ports, docker: Option<set<int>>, project: Option<set<int>>, probe: Probe) returns (r: Verdict)
    ensures r.Accepted? <==> PortsAcceptable(p, docker, project, probe)
    ensures r.Accepted? ==> (r.fullyChecked <==>
      docker.Some? && forall i :: 0 <= i < 3 ==>
        var port := [p.api, p.web, p.postgres][i];
        probe(port) == Some(true) || (project.Some? && port in project.value))
  {
    if !Distinct(p) {
      return Invalid;
    }
    var ports := AsList(p);
    var fullyChecked := docker.Some?;
    for i := 0 to 3
      invariant forall j :: 0 <= j < i ==> PortAcceptable(ports[j], docker, project, probe)
      invariant fullyChecked <==> docker.Some? && forall j :: 0 <= j < i ==> PortProven(ports[j], project, probe)
    {
      if !PortAcceptable(ports[i], docker, project, probe) {
        return Invalid;
      }
      fullyChecked := fullyChecked && PortProven(ports[i], project, probe);
    }
    r := Accepted(fullyChecked);
  }

  /** An allocated block is always accepted under the availability it was allocated under, whatever
      the project's own ports. */
  lemma AllocatedBlocksAreAccepted(identity: nat, k: nat, docker: Option<set<int>>, project: Option<set<int>>,
      probe: Probe)
    requires Free(Candidate(identity, k), docker, probe)
    ensures PortsAcceptable(BlockAt(Candidate(identity, k)), docker, project, probe)
  {
    CandidateIsABlock(identity, k);
  }
}
