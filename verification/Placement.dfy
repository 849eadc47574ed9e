/**
 Where the experiment scripts start each replica (experiment-scripts/utils/experiment_util.py) and
 where the network configuration says it is (experiment-scripts/lib/indicus_codebase.py).
 */
module Placement {
  import opened Arithmetic
  import opened Bytes

  /** A replica process: the server that runs it, its group, its index in the group, and the number
      of the process on that server. */
  datatype Replica = Replica(server: nat, group: nat, index: nat, process: nat)

  /** What start_servers starts at step i of a group, with x servers per replica. The index comes from
      the server, in get_replica_cmd. */
  function Started(servers: nat, x: nat, group: nat, i: nat): Replica
    requires servers > 0 && x > 0
  {
    var server := Mod(i * x + group, servers);
    Replica(server, group, Div(server, x), Div(group, x))
  }

  /** What prepare_local_exp_directory writes as line r of a group. */
  function Configured(x: nat, group: nat, r: nat): Replica
    requires x > 0
  {
    Replica(r * x + Mod(group, x), group, r, Div(group, x))
  }

  function StartedGroup(servers: nat, x: nat, group: nat, n: nat): (s: seq<Replica>)
    requires servers > 0 && x > 0
    ensures |s| == n && forall i :: 0 <= i < n ==> s[i] == Started(servers, x, group, i)
  {
    seq(n, i requires 0 <= i < n => Started(servers, x, group, i))
  }

  function ConfiguredGroup(x: nat, group: nat, n: nat): (s: seq<Replica>)
    requires x > 0
    ensures |s| == n && forall r :: 0 <= r < n ==> s[r] == Configured(x, group, r)
  {
    seq(n, r requires 0 <= r < n => Configured(x, group, r))
  }

  // ---------------------------------------------------------------- arithmetic

  lemma SplitUnique(d: nat, q: nat, r: nat)
    requires r < d
    ensures Div(q * d + r, d) == q && Mod(q * d + r, d) == r
  {
    DivUnique(q * d + r, d, q);
    ModOfDiv(q * d + r, d);
  }

  /** Going round n blocks of x servers. */
  lemma Rotates(n: nat, x: nat, i: nat, group: nat)
    requires n > 0 && x > 0
    ensures n * x > 0
    ensures Mod(i * x + group, n * x) == Mod(i + Div(group, x), n) * x + Mod(group, x)
  {
    var a, b := Div(group, x), Mod(group, x);
    var q, r := Div(i + a, n), Mod(i + a, n);
    ModOfDiv(group, x);
    ModOfDiv(i + a, n);
    Regroups(i, a, q, n, r, x);
    BlockBound(r, n, b, x);
    SplitUnique(n * x, q, r * x + b);
  }

  lemma Regroups(i: nat, a: nat, q: nat, n: nat, r: nat, x: nat)
    requires i + a == q * n + r
    ensures i * x + a * x == q * (n * x) + r * x
  {
    assert i * x + a * x == (i + a) * x == (q * n + r) * x == (q * n) * x + r * x;
    assert (q * n) * x == q * (n * x);
  }

  lemma BlockBound(r: nat, n: nat, b: nat, x: nat)
    requires r < n && b < x
    ensures r * x + b < n * x
  {
    MulMono(r + 1, n, x);
    assert (r + 1) * x == r * x + x;
  }

  /** Adding a number and going round n is one to one and onto. */
  lemma RotatesBack(n: nat, a: nat, r: nat) returns (i: nat)
    requires r < n
    ensures i < n && Mod(i + a, n) == r
  {
    var q, b := Div(a, n), Mod(a, n);
    ModOfDiv(a, n);
    if b <= r {
      i := r - b;
      SplitUnique(n, q, r);
    } else {
      i := r + n - b;
      assert (q + 1) * n == q * n + n;
      SplitUnique(n, q + 1, r);
    }
  }

  // ---------------------------------------------------------------- one group

  lemma FullServers(servers: nat, n: nat, x: nat, group: nat, i: nat)
    requires n > 0 && x > 0 && servers == n * x > 0
    ensures Started(servers, x, group, i) == Configured(x, group, Mod(i + Div(group, x), n))
  {
    Rotates(n, x, i, group);
    SplitUnique(x, Mod(i + Div(group, x), n), Mod(group, x));
  }

  lemma FirstGroups(servers: nat, n: nat, x: nat, group: nat, i: nat)
    requires x > 0 && n * x <= servers && i < n && group < x && servers > 0
    ensures Started(servers, x, group, i) == Configured(x, group, i)
  {
    MulMono(i + 1, n, x);
    assert (i + 1) * x == i * x + x;
    SplitUnique(servers, 0, i * x + group);
    SplitUnique(x, i, group);
    SplitUnique(x, 0, group);
  }

  ghost predicate SameReplicas(a: seq<Replica>, b: seq<Replica>) {
    forall p: Replica :: p in a <==> p in b
  }

  lemma GroupMatches(servers: nat, n: nat, x: nat, group: nat)
    requires n > 0 && x > 0 && n * x <= servers && servers > 0
    requires n * x == servers || group < x
    ensures SameReplicas(StartedGroup(servers, x, group, n), ConfiguredGroup(x, group, n))
  {
    var s, c := StartedGroup(servers, x, group, n), ConfiguredGroup(x, group, n);
    forall i: nat | i < n
      ensures s[i] in c && c[i] in s
    {
      if group < x {
        FirstGroups(servers, n, x, group, i);
      } else {
        FullServers(servers, n, x, group, i);
        assert s[i] == c[Mod(i + Div(group, x), n)];
        var j := RotatesBack(n, Div(group, x), i);
        FullServers(servers, n, x, group, j);
        assert c[i] == s[j];
      }
    }
  }

  /** Nothing is started twice. */
  lemma StartedOnce(servers: nat, n: nat, x: nat, group: nat, i: nat, j: nat)
    requires n > 0 && x > 0 && n * x <= servers && servers > 0
    requires i < j < n
    ensures Started(servers, x, group, i) != Started(servers, x, group, j)
  {
    MulMono(i + 1, j, x);
    MulMono(j - i + 1, n, x);
    assert (i + 1) * x == i * x + x && (j - i) * x == j * x - i * x && (j - i + 1) * x == (j - i) * x + x;
    ModApart(i * x + group, j * x + group, servers);
  }

  lemma ModApart(a: nat, b: nat, d: nat)
    requires a < b < a + d
    ensures Mod(a, d) != Mod(b, d)
  {
    var p, q := Div(a, d), Div(b, d);
    ModOfDiv(a, d);
    ModOfDiv(b, d);
    if p < q {
      MulMono(p + 1, q, d);
      assert (p + 1) * d == p * d + d;
    } else {
      MulMono(q, p, d);
    }
  }

  // ---------------------------------------------------------------- all groups

  ghost predicate AllMatch(servers: nat, n: nat, groups: nat)
    requires 0 < n <= servers
  {
    var x := Div(servers, n);
    DivBounds(servers, n);
    forall group: nat :: group < groups ==>
      SameReplicas(StartedGroup(servers, x, group, n), ConfiguredGroup(x, group, n))
  }

  /** In every group the processes started are the ones configured, on the same servers and with the
      same indices, exactly when n divides the servers or no group comes after the first round. */
  lemma StartedAsConfigured(servers: nat, n: nat, groups: nat)
    requires 0 < n <= servers
    ensures AllMatch(servers, n, groups) <==> Mod(servers, n) == 0 || groups <= Div(servers, n)
  {
    var x := Div(servers, n);
    DivBounds(servers, n);
    ModOfDiv(servers, n);
    assert n * x == x * n;
    if Mod(servers, n) == 0 || groups <= x {
      forall group: nat | group < groups
        ensures SameReplicas(StartedGroup(servers, x, group, n), ConfiguredGroup(x, group, n))
      {
        GroupMatches(servers, n, x, group);
      }
    } else {
      WrongIndex(servers, n, x);
      assert !SameReplicas(StartedGroup(servers, x, x, n), ConfiguredGroup(x, x, n));
    }
  }

  /** With servers to spare, the first group of the second round has a replica of index n. */
  lemma WrongIndex(servers: nat, n: nat, x: nat)
    requires n > 0 && x > 0 && n * x < servers
    ensures Started(servers, x, x, n - 1) == Replica(n * x, x, n, 1)
    ensures Replica(n * x, x, n, 1) in StartedGroup(servers, x, x, n)
    ensures Replica(n * x, x, n, 1) !in ConfiguredGroup(x, x, n)
  {
    assert (n - 1) * x + x == n * x;
    SplitUnique(servers, 0, n * x);
    SplitUnique(x, n, 0);
    SplitUnique(x, 1, 0);
    assert StartedGroup(servers, x, x, n)[n - 1] == Replica(n * x, x, n, 1);
  }

  // ---------------------------------------------------------------- addresses

  datatype Host = Local | Named(server: nat)

  datatype Line = Line(host: Host, port: nat)

  function Address(locally: bool, base: nat, servers: nat, p: Replica): Line {
    if locally then Line(Local, base + p.process * servers + p.server)
    else Line(Named(p.server), base + p.process)
  }

  lemma OneServerOneReplica(x: nat, g: nat, r: nat, h: nat, t: nat)
    requires x > 0 && Div(g, x) == Div(h, x) && r * x + Mod(g, x) == t * x + Mod(h, x)
    ensures g == h && r == t
  {
    SplitUnique(x, r, Mod(g, x));
    SplitUnique(x, t, Mod(h, x));
    ModOfDiv(g, x);
    ModOfDiv(h, x);
  }

  /** No two replicas of the configuration share a host and a port. */
  lemma NoSharedAddress(locally: bool, base: nat, servers: nat, n: nat, g: nat, r: nat, h: nat, t: nat)
    requires 0 < n <= servers && r < n && t < n && Div(servers, n) > 0
    requires (g, r) != (h, t)
    ensures Address(locally, base, servers, Configured(Div(servers, n), g, r)) !=
              Address(locally, base, servers, Configured(Div(servers, n), h, t))
  {
    var x := Div(servers, n);
    var p, q := Configured(x, g, r), Configured(x, h, t);
    InRange(servers, n, g, r);
    InRange(servers, n, h, t);
    if Address(locally, base, servers, p) == Address(locally, base, servers, q) {
      SplitUnique(servers, p.process, p.server);
      SplitUnique(servers, q.process, q.server);
      OneServerOneReplica(x, g, r, h, t);
    }
  }

  /** Every configured server exists. */
  lemma InRange(servers: nat, n: nat, g: nat, r: nat)
    requires 0 < n <= servers && r < n && Div(servers, n) > 0
    ensures Configured(Div(servers, n), g, r).server < servers
  {
    var x := Div(servers, n);
    DivBounds(servers, n);
    MulMono(r + 1, n, x);
    assert (r + 1) * x == r * x + x && n * x == x * n;
  }

  // ---------------------------------------------------------------- the scripts

  /** The commands of the groups below g, each with its n replicas, in the order given. */
  function AllStarted(servers: nat, x: nat, n: nat, g: nat): seq<Replica>
    requires servers > 0 && x > 0
  {
    if g == 0 then [] else AllStarted(servers, x, n, g - 1) + StartedGroup(servers, x, g - 1, n)
  }

  function OnServer(all: seq<Replica>, server: nat): seq<Replica> {
    if all == [] then [] else
    OnServer(all[..|all| - 1], server) + if all[|all| - 1].server == server then [all[|all| - 1]] else []
  }

  ghost predicate IsByServer(commands: map<nat, seq<Replica>>, all: seq<Replica>) {
    forall server: nat ::
      (if server in commands then commands[server] else []) == OnServer(all, server)
  }

  lemma ByServerNext(commands: map<nat, seq<Replica>>, all: seq<Replica>, p: Replica)
    requires IsByServer(commands, all)
    ensures p.server in commands ==> IsByServer(commands[p.server := commands[p.server] + [p]], all + [p])
    ensures p.server !in commands ==> IsByServer(commands[p.server := [p]], all + [p])
  {
    assert (all + [p])[..|all|] == all;
  }

  lemma EnoughServers(servers: nat, n: nat)
    requires n > 0
    ensures Div(servers, n) > 0 <==> servers >= n
  {
    DivBelow(servers, n, 1);
  }

  method StartGroup(servers: nat, x: nat, group: nat, n: nat, before: map<nat, seq<Replica>>,
                    ghost all: seq<Replica>)
    returns (commands: map<nat, seq<Replica>>)
    requires servers > 0 && x > 0 && IsByServer(before, all)
    ensures IsByServer(commands, all + StartedGroup(servers, x, group, n))
  {
    commands := before;
    assert all + StartedGroup(servers, x, group, 0) == all;
    for i := 0 to n
      invariant IsByServer(commands, all + StartedGroup(servers, x, group, i))
    {
      var p := Started(servers, x, group, i);
      assert all + StartedGroup(servers, x, group, i + 1) == all + StartedGroup(servers, x, group, i) + [p];
      ByServerNext(commands, all + StartedGroup(servers, x, group, i), p);
      if p.server in commands {
        commands := commands[p.server := commands[p.server] + [p]];
      } else {
        commands := commands[p.server := [p]];
      }
    }
  }

  /** start_servers: for each server the processes started there, in order; none when a division
      by zero stops the script. */
  method StartServers(servers: nat, n: nat, groups: nat) returns (r: Option<map<nat, seq<Replica>>>)
    ensures r.None? <==> n == 0 || (servers < n && groups > 0)
    ensures r.Some? && groups > 0 ==>
              && 0 < n <= servers && Div(servers, n) > 0
              && IsByServer(r.value, AllStarted(servers, Div(servers, n), n, groups))
    ensures r.Some? && groups == 0 ==> r.value == map[]
  {
    if n == 0 {
      return None;
    }
    var x := Div(servers, n);
    EnoughServers(servers, n);
    if groups == 0 {
      return Some(map[]);
    }
    if x == 0 {
      return None;
    }
    var commands := StartGroups(servers, x, n, groups);
    r := Some(commands);
  }

  method StartGroups(servers: nat, x: nat, n: nat, groups: nat) returns (commands: map<nat, seq<Replica>>)
    requires servers > 0 && x > 0
    ensures IsByServer(commands, AllStarted(servers, x, n, groups))
  {
    commands := map[];
    for group := 0 to groups
      invariant IsByServer(commands, AllStarted(servers, x, n, group))
    {
      commands := StartGroup(servers, x, group, n, commands, AllStarted(servers, x, n, group));
    }
  }

  lemma {:induction false} AllStartedMembers(servers: nat, x: nat, n: nat, groups: nat, p: Replica)
    requires servers > 0 && x > 0
    ensures p in AllStarted(servers, x, n, groups) <==>
              p.group < groups && p in StartedGroup(servers, x, p.group, n)
  {
    if groups > 0 {
      AllStartedMembers(servers, x, n, groups - 1, p);
    }
  }

  lemma {:induction false} OnServerMembers(all: seq<Replica>, server: nat, p: Replica)
    ensures p in OnServer(all, server) <==> p in all && p.server == server
  {
    if all != [] {
      OnServerMembers(all[..|all| - 1], server, p);
      assert all == all[..|all| - 1] + [all[|all| - 1]];
    }
  }

  /** Where started and configured agree, each server's commands start what is configured on it. */
  lemma EachServerRunsItsReplicas(servers: nat, n: nat, groups: nat, server: nat, p: Replica)
    requires 0 < n <= servers && Div(servers, n) > 0
    requires Mod(servers, n) == 0 || groups <= Div(servers, n)
    ensures p in OnServer(AllStarted(servers, Div(servers, n), n, groups), server) <==>
              && p.server == server && p.group < groups && p.index < n
              && p == Configured(Div(servers, n), p.group, p.index)
  {
    var x := Div(servers, n);
    OnServerMembers(AllStarted(servers, x, n, groups), server, p);
    AllStartedMembers(servers, x, n, groups, p);
    StartedAsConfigured(servers, n, groups);
    if p.group < groups {
      assert SameReplicas(StartedGroup(servers, x, p.group, n), ConfiguredGroup(x, p.group, n));
      if p.index < n && p == Configured(x, p.group, p.index) {
        assert ConfiguredGroup(x, p.group, n)[p.index] == p;
      }
    }
  }

  function Lines(locally: bool, base: nat, servers: nat, x: nat, group: nat, n: nat): (s: seq<Line>)
    requires x > 0
    ensures |s| == n
    ensures forall i :: 0 <= i < n ==> s[i] == Address(locally, base, servers, Configured(x, group, i))
  {
    seq(n, i requires 0 <= i < n => Address(locally, base, servers, Configured(x, group, i)))
  }

  method GroupLines(locally: bool, base: nat, servers: nat, x: nat, group: nat, n: nat) returns (lines: seq<Line>)
    requires x > 0
    ensures lines == Lines(locally, base, servers, x, group, n)
  {
    var process := Div(group, x);
    lines := [];
    for i := 0 to n
      invariant lines == Lines(locally, base, servers, x, group, i)
    {
      var server := i * x + Mod(group, x);
      if locally {
        lines := lines + [Line(Local, base + process * servers + server)];
      } else {
        lines := lines + [Line(Named(server), base + process)];
      }
    }
  }

  /** prepare_local_exp_directory: the replica lines of each group. */
  method WriteConfig(locally: bool, base: nat, servers: nat, n: nat, groups: nat)
    returns (r: Option<seq<seq<Line>>>)
    ensures r.None? <==> n == 0 || (servers < n && groups > 0)
    ensures r.Some? ==> |r.value| == groups
    ensures r.Some? && groups > 0 ==>
              && 0 < n <= servers && Div(servers, n) > 0
              && forall g :: 0 <= g < groups ==> r.value[g] == Lines(locally, base, servers, Div(servers, n), g, n)
  {
    if n == 0 {
      return None;
    }
    var x := Div(servers, n);
    EnoughServers(servers, n);
    var file := [];
    for group := 0 to groups
      invariant |file| == group && (group > 0 ==> x > 0)
      invariant forall g :: 0 <= g < group ==> file[g] == Lines(locally, base, servers, x, g, n)
    {
      if x == 0 {
        return None;
      }
      var lines := GroupLines(locally, base, servers, x, group, n);
      file := file + [lines];
    }
    r := Some(file);
  }
}
