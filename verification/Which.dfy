/** Which: the resolution order current directory, command path, C:, over a path chain that may be cyclic. */
module Which {
  import opened Bytes
  import opened Streams
  import opened Chains

  const MAX_PATH_ENTRIES := 64
  const CANDIDATE_LEN := 260

  // ------------------------------------------------------- searching the path

  /** The first n components exist, are pairwise different, and do not have the entry. */
  ghost predicate Tried(next: Address -> Address, holds: Address -> bool, head: Address, n: nat) {
    && (forall k: nat :: k < n ==> At(next, head, k) != NULL && !holds(At(next, head, k)))
    && (forall i: nat, j: nat :: i < j < n ==> At(next, head, i) != At(next, head, j))
  }

  ghost predicate Repeats(next: Address -> Address, head: Address, n: nat) {
    exists i: nat :: i < n && At(next, head, i) == At(next, head, n)
  }

  /** The state in which the path loop stops: a match, a repeated component, the end, or the limit. */
  ghost predicate Searched(next: Address -> Address, holds: Address -> bool, head: Address,
                           index: nat, hit: bool, cycle: bool) {
    && index <= MAX_PATH_ENTRIES && Tried(next, holds, head, index)
    && var stopped := index < MAX_PATH_ENTRIES && At(next, head, index) != NULL;
       && (cycle <==> stopped && Repeats(next, head, index))
       && (hit <==> stopped && !cycle)
       && (hit ==> holds(At(next, head, index)))
  }

  /** path_component_seen. */
  method Seen(visited: array<Address>, component: Address, count: nat) returns (seen: bool)
    requires count <= visited.Length
    ensures seen <==> component in visited[..count]
  {
    var i := 0;
    while i < count
      invariant 0 <= i <= count
      invariant component !in visited[..i]
    {
      if visited[i] == component { return true; }
      i := i + 1;
    }
    seen := false;
  }

  ghost predicate Trail(next: Address -> Address, head: Address, trail: seq<Address>) {
    forall k :: 0 <= k < |trail| ==> trail[k] == At(next, head, k)
  }

  lemma TrailDecides(next: Address -> Address, head: Address, trail: seq<Address>)
    requires Trail(next, head, trail)
    ensures At(next, head, |trail|) in trail <==> Repeats(next, head, |trail|)
  {
    hide At;
    if Repeats(next, head, |trail|) {
      var i: nat :| i < |trail| && At(next, head, i) == At(next, head, |trail|);
      assert trail[i] == At(next, head, i);
    }
  }

  lemma TrailSnoc(next: Address -> Address, head: Address, trail: seq<Address>)
    requires Trail(next, head, trail)
    ensures Trail(next, head, trail + [At(next, head, |trail|)])
  {
    hide At;
  }

  /** The component loop of main; `holds` answers whether a component's directory has the entry. */
  method SearchPath(next: Address -> Address, holds: Address -> bool, head: Address)
    returns (index: nat, hit: bool, cycle: bool)
    ensures Searched(next, holds, head, index, hit, cycle)
  {
    var visited := new Address[MAX_PATH_ENTRIES];
    var component := head;
    index, hit, cycle := 0, false, false;
    AtNext(next, head, 0);
    assert Tried(next, holds, head, 0) && Trail(next, head, visited[..0]);
    hide At, Tried, Trail, Repeats;
    while component != NULL && index < MAX_PATH_ENTRIES
      invariant index <= MAX_PATH_ENTRIES && component == At(next, head, index)
      invariant Trail(next, head, visited[..index])
      invariant Tried(next, holds, head, index)
      decreases MAX_PATH_ENTRIES - index
    {
      ghost var trail := visited[..index];
      var seen := Seen(visited, component, index);
      TrailDecides(next, head, trail);
      if seen {
        cycle := true;
        break;
      }
      visited[index] := component;
      if holds(component) {
        hit := true;
        return;
      }
      AtNext(next, head, index);
      TriedOneMore(next, holds, head, index);
      TrailSnoc(next, head, trail);
      assert visited[..index + 1] == trail + [component];
      component := next(component);
      index := index + 1;
    }
  }

  lemma TriedOneMore(next: Address -> Address, holds: Address -> bool, head: Address, n: nat)
    requires Tried(next, holds, head, n) && !Repeats(next, head, n)
    requires At(next, head, n) != NULL && !holds(At(next, head, n))
    ensures Tried(next, holds, head, n + 1)
  {
    hide At;
  }

  // --------------------------------------------------- what the outcome means

  /** The search reports exactly the first matching component, if it is among the first 64. */
  lemma FirstMatchIsFound(next: Address -> Address, holds: Address -> bool, head: Address,
                          index: nat, hit: bool, cycle: bool, m: nat)
    requires Searched(next, holds, head, index, hit, cycle)
    requires m < MAX_PATH_ENTRIES && At(next, head, m) != NULL && holds(At(next, head, m))
    requires forall k: nat :: k < m ==> !holds(At(next, head, k))
    ensures hit && index == m
  {
    hide At;
    if index < m {
      if At(next, head, index) == NULL {
        NullStays(next, head, index, m);
      } else if cycle {
        var i: nat :| i < index && At(next, head, i) == At(next, head, index);
        RepeatStays(next, head, index, i, m - index);
      }
    }
  }

  /** The cycle flag means that the chain goes round for ever. */
  lemma CycleIsGenuine(next: Address -> Address, holds: Address -> bool, head: Address, index: nat)
    returns (start: nat, period: nat)
    requires Searched(next, holds, head, index, false, true)
    ensures period > 0 && start + period == index
    ensures forall k: nat :: k >= start ==> At(next, head, k + period) == At(next, head, k)
    ensures forall k: nat :: At(next, head, k) != NULL
  {
    start :| start < index && At(next, head, start) == At(next, head, index);
    period := index - start;
    forall k: nat | k >= start
      ensures At(next, head, k + period) == At(next, head, k)
    {
      RepeatStays(next, head, index, start, k - start);
    }
    forall k: nat ensures At(next, head, k) != NULL { GoesRound(next, head, start, period, k); }
  }

  lemma {:induction false} GoesRound(next: Address -> Address, head: Address, start: nat, period: nat, k: nat)
    requires period > 0
    requires forall m: nat :: m >= start ==> At(next, head, m + period) == At(next, head, m)
    requires forall m: nat :: m <= start + period ==> At(next, head, m) != NULL
    ensures At(next, head, k) != NULL
    decreases k
  {
    if k > start + period {
      GoesRound(next, head, start, period, k - period);
      assert At(next, head, (k - period) + period) == At(next, head, k - period);
    }
  }

  /** A repetition among the first 64 places is always found when nothing matches. */
  lemma CycleIsFound(next: Address -> Address, holds: Address -> bool, head: Address, index: nat, cycle: bool,
                     i: nat, j: nat)
    requires Searched(next, holds, head, index, false, cycle)
    requires i < j < MAX_PATH_ENTRIES && At(next, head, i) == At(next, head, j) != NULL
    ensures cycle
  {
    if !cycle && At(next, head, index) == NULL && index <= j {
      NullStays(next, head, index, j);
    }
  }

  /** n + 1 different values do not fit into a set of n. */
  lemma {:induction false} TooMany(f: nat -> Address, n: nat, s: set<Address>)
    requires forall k :: 0 <= k < n ==> f(k) in s
    requires forall i, j :: 0 <= i < j < n ==> f(i) != f(j)
    ensures n <= |s|
  {
    if n > 0 {
      var smaller := s - {f(n - 1)};
      TooMany(f, n - 1, smaller);
      assert s == smaller + {f(n - 1)};
    }
  }

  /** A chain that runs among fewer than 64 components without ending is reported as cyclic. */
  lemma SmallCycleIsFound(next: Address -> Address, holds: Address -> bool, head: Address, index: nat, cycle: bool,
                          components: set<Address>)
    requires Searched(next, holds, head, index, false, cycle)
    requires |components| < 64 && NULL !in components
    requires forall k: nat :: At(next, head, k) in components
    ensures cycle
  {
    if !cycle {
      TooMany((k: nat) => At(next, head, k), MAX_PATH_ENTRIES, components);
      assert false;
    }
  }

  ghost predicate EndsWithin(next: Address -> Address, head: Address, limit: nat) {
    exists n: nat :: n < limit && At(next, head, n) == NULL
  }

  /** Falling through silently happens exactly on chains that end before 64 components without a
      match, and then every component of the chain was tried. */
  lemma SilentMeansComplete(next: Address -> Address, holds: Address -> bool, head: Address, index: nat, cycle: bool)
    requires Searched(next, holds, head, index, false, cycle)
    ensures !cycle && index < 64 <==> EndsWithin(next, head, 64)
    ensures !cycle && index < 64 ==>
      forall k: nat :: At(next, head, k) != NULL ==> k < index && !holds(At(next, head, k))
  {
    if !cycle && index < MAX_PATH_ENTRIES {
      assert At(next, head, index) == NULL;
      forall k: nat | At(next, head, k) != NULL ensures k < index {
        if k >= index { NullStays(next, head, index, k); }
      }
    }
    if EndsWithin(next, head, MAX_PATH_ENTRIES) {
      var n: nat :| n < MAX_PATH_ENTRIES && At(next, head, n) == NULL;
      EndingIsReached(next, holds, head, index, cycle, n);
    }
  }

  lemma EndingIsReached(next: Address -> Address, holds: Address -> bool, head: Address, index: nat, cycle: bool, n: nat)
    requires Searched(next, holds, head, index, false, cycle)
    requires n < MAX_PATH_ENTRIES && At(next, head, n) == NULL
    ensures !cycle && index < MAX_PATH_ENTRIES
  {
    hide At;
    if cycle {
      var _, _ := CycleIsGenuine(next, holds, head, index);
    }
  }

  /** The limit warning is also given for a chain of exactly 64 components, all of which were tried. */
  lemma LimitWithoutLoss(next: Address -> Address, holds: Address -> bool, head: Address, index: nat, cycle: bool)
    requires Searched(next, holds, head, index, false, cycle)
    requires At(next, head, 63) != NULL && At(next, head, 64) == NULL
    ensures !cycle && index == 64
    ensures forall k: nat :: At(next, head, k) != NULL ==> k < index && !holds(At(next, head, k))
  {
    if cycle {
      var _, _ := CycleIsGenuine(next, holds, head, index);
    } else if index < MAX_PATH_ENTRIES {
      NullStays(next, head, index, MAX_PATH_ENTRIES - 1);
    }
    forall k: nat | At(next, head, k) != NULL ensures k < MAX_PATH_ENTRIES {
      if k >= MAX_PATH_ENTRIES { NullStays(next, head, MAX_PATH_ENTRIES, k); }
    }
  }

  ghost predicate NeverEnds(next: Address -> Address, head: Address) {
    forall k: nat :: At(next, head, k) != NULL
  }

  /** Some component of the chain is none of the first 64. */
  ghost predicate SomeUntried(next: Address -> Address, head: Address) {
    exists k: nat :: At(next, head, k) != NULL
      && forall j: nat :: j < 64 ==> At(next, head, j) != At(next, head, k)
  }

  /** Once a component repeats, all later ones are among those before the repetition. */
  lemma {:induction false} AmongEarlier(next: Address -> Address, head: Address, i: nat, n: nat, k: nat) returns (j: nat)
    requires i < n && At(next, head, i) == At(next, head, n)
    ensures j < n && At(next, head, j) == At(next, head, k)
    decreases k
  {
    hide At;
    if k < n {
      j := k;
    } else {
      RepeatStays(next, head, i, n, k - n);
      j := AmongEarlier(next, head, i, n, i + (k - n));
    }
  }

  /** The limit warning tells of a component that was not tried exactly when the chain goes on after 64
      components with a new one; it is given without loss when the chain ends there or returns there. */
  lemma LimitMeansLoss(next: Address -> Address, holds: Address -> bool, head: Address)
    requires Searched(next, holds, head, 64, false, false)
    ensures SomeUntried(next, head)
       <==> At(next, head, 64) != NULL && !Repeats(next, head, 64)
  {
    hide At;
    var n := MAX_PATH_ENTRIES;
    if SomeUntried(next, head) {
      var k: nat :| At(next, head, k) != NULL && forall j: nat :: j < n ==> At(next, head, j) != At(next, head, k);
      if At(next, head, n) == NULL { NullStays(next, head, n, k); }
      if Repeats(next, head, n) {
        var i: nat :| i < n && At(next, head, i) == At(next, head, n);
        var _ := AmongEarlier(next, head, i, n, k);
      }
    }
    if At(next, head, n) != NULL && !Repeats(next, head, n) {
      assert forall j: nat :: j < n ==> At(next, head, j) != At(next, head, n);
    }
  }

  /** A ring of 64 components: each is followed by the next address, and 64 by 1. */
  function Ring(a: Address): Address {
    if a < 64 then a + 1 else 1
  }

  lemma {:induction false} RingAt(k: nat)
    requires k < MAX_PATH_ENTRIES
    ensures At(Ring, 1, k) == k + 1
  {
    if k > 0 { RingAt(k - 1); }
  }

  /** On the ring the limit warning is given although every component was tried and the chain is cyclic. */
  lemma RingReachesLimit()
    ensures Searched(Ring, a => false, 1, 64, false, false)
    ensures !SomeUntried(Ring, 1) && NeverEnds(Ring, 1)
  {
    hide At;
    forall k: nat | k < MAX_PATH_ENTRIES ensures At(Ring, 1, k) == k + 1 { RingAt(k); }
    AtNext(Ring, 1, MAX_PATH_ENTRIES - 1);
    assert At(Ring, 1, 0) == At(Ring, 1, MAX_PATH_ENTRIES);
    LimitMeansLoss(Ring, a => false, 1);
    forall k: nat ensures At(Ring, 1, k) != NULL { var _ := AmongEarlier(Ring, 1, 0, MAX_PATH_ENTRIES, k); }
  }

  /** Two of the first 64 places hold the same component. */
  ghost predicate RepeatsInReach(next: Address -> Address, head: Address) {
    exists i: nat, j: nat :: i < j < 64 && At(next, head, i) == At(next, head, j) != NULL
  }

  /** Which warning follows a search without a match, told from the chain alone. */
  lemma WarningsExact(next: Address -> Address, holds: Address -> bool, head: Address, index: nat, cycle: bool)
    requires Searched(next, holds, head, index, false, cycle)
    ensures cycle <==> RepeatsInReach(next, head)
    ensures !cycle && index >= 64 <==> Tried(next, holds, head, 64)
  {
    hide At;
    if RepeatsInReach(next, head) {
      var i: nat, j: nat :| i < j < MAX_PATH_ENTRIES && At(next, head, i) == At(next, head, j) != NULL;
      CycleIsFound(next, holds, head, index, cycle, i, j);
    }
    if cycle {
      var i: nat :| i < index && At(next, head, i) == At(next, head, index);
      assert At(next, head, i) != NULL;
    }
  }

  // -------------------------------------------------------------- the program

  datatype Warning = NoWarning | CycleWarning | LimitWarning

  datatype Answer = Direct | Current | OnPath(index: nat) | InC | NotFound(warning: Warning)

  method HasPathSyntax(name: CString) returns (found: bool)
    ensures found <==> ':' in name || '/' in name
  {
    var i := 0;
    while i < |name|
      invariant 0 <= i <= |name|
      invariant forall k :: 0 <= k < i ==> name[k] != ':' && name[k] != '/'
    {
      if name[i] == ':' || name[i] == '/' { return true; }
      i := i + 1;
    }
    found := false;
  }

  /** The C: name is built in a 260-byte buffer; it is used only when the whole name fits. */
  method BuildCandidate(candidate: array<byte>, name: CString) returns (fits: bool)
    requires candidate.Length == CANDIDATE_LEN
    modifies candidate
    ensures fits <==> |name| <= 257
    ensures fits ==> candidate[..|name| + 3] == "C:" + name + "\0"
  {
    candidate[0], candidate[1] := 'C', ':';
    var i, j := 2, 0;
    while j < |name| && i < CANDIDATE_LEN - 1
      invariant 0 <= j <= |name| && i == j + 2 <= CANDIDATE_LEN - 1
      invariant candidate[..i] == "C:" + name[..j]
    {
      ghost var sofar := candidate[..i];
      candidate[i] := name[j];
      i, j := i + 1, j + 1;
      assert candidate[..i] == sofar + [name[j - 1]];
      assert name[..j] == name[..j - 1] + [name[j - 1]];
    }
    ghost var sofar := candidate[..i];
    candidate[i] := '\0';
    assert candidate[..i + 1] == sofar + ['\0'];
    fits := j == |name|;
    if fits { assert name[..j] == name; }
  }

  /** The k-th component has the entry and none before it does. */
  ghost predicate LeastMatch(next: Address -> Address, holds: Address -> bool, head: Address, k: nat) {
    && At(next, head, k) != NULL && holds(At(next, head, k))
    && forall j: nat :: j < k ==> At(next, head, j) != NULL && !holds(At(next, head, j))
  }

  ghost predicate NoMatch(next: Address -> Address, holds: Address -> bool, head: Address) {
    forall k: nat :: At(next, head, k) != NULL ==> !holds(At(next, head, k))
  }

  /** What an answer says about the command path it was found, or not found, on. */
  ghost predicate TrueOfPath(next: Address -> Address, holds: Address -> bool, head: Address, answer: Answer) {
    match answer
    case Direct => true
    case Current => true
    case OnPath(k) => k < 64 && LeastMatch(next, holds, head, k)
    case InC => !MatchInReach(next, holds, head)
    case NotFound(NoWarning) => NoMatch(next, holds, head) && EndsWithin(next, head, 64)
    case NotFound(CycleWarning) =>
      NoMatch(next, holds, head) && NeverEnds(next, head) && RepeatsInReach(next, head)
    case NotFound(LimitWarning) => Tried(next, holds, head, 64)
  }

  ghost predicate MatchInReach(next: Address -> Address, holds: Address -> bool, head: Address) {
    exists k: nat :: k < 64 && LeastMatch(next, holds, head, k)
  }

  /** A component is found exactly when one of the first 64 places has a match. */
  lemma HitMeansMatch(next: Address -> Address, holds: Address -> bool, head: Address,
                      index: nat, hit: bool, cycle: bool)
    requires Searched(next, holds, head, index, hit, cycle)
    ensures hit <==> MatchInReach(next, holds, head)
    ensures hit ==> index < MAX_PATH_ENTRIES && LeastMatch(next, holds, head, index)
  {
    hide At;
    if hit { assert LeastMatch(next, holds, head, index); }
    if MatchInReach(next, holds, head) {
      var k: nat :| k < MAX_PATH_ENTRIES && LeastMatch(next, holds, head, k);
      FirstMatchIsFound(next, holds, head, index, hit, cycle, k);
    }
  }

  /** Going round a cycle meets only components that were tried before the repetition. */
  lemma {:induction false} CycleWasTried(next: Address -> Address, holds: Address -> bool, head: Address, index: nat, k: nat)
    requires Searched(next, holds, head, index, false, true)
    ensures !holds(At(next, head, k))
    decreases k
  {
    if k >= index {
      var start, period := CycleIsGenuine(next, holds, head, index);
      CycleWasTried(next, holds, head, index, k - period);
      assert At(next, head, (k - period) + period) == At(next, head, k - period);
    }
  }

  /** The warnings tell the truth about a search without a match. */
  lemma WarningIsTrue(next: Address -> Address, holds: Address -> bool, head: Address, index: nat, cycle: bool)
    requires Searched(next, holds, head, index, false, cycle)
    ensures TrueOfPath(next, holds, head, NotFound(WarningOf(index, cycle)))
  {
    if cycle {
      var _, _ := CycleIsGenuine(next, holds, head, index);
      WarningsExact(next, holds, head, index, cycle);
      forall k: nat ensures !holds(At(next, head, k)) { CycleWasTried(next, holds, head, index, k); }
    } else if index < MAX_PATH_ENTRIES {
      SilentMeansComplete(next, holds, head, index, cycle);
    }
  }

  /** The warning a chain without a match deserves. */
  ghost function PathWarning(next: Address -> Address, holds: Address -> bool, head: Address): Warning {
    if RepeatsInReach(next, head) then CycleWarning
    else if Tried(next, holds, head, 64) then LimitWarning
    else NoWarning
  }

  lemma WarningIsDeserved(next: Address -> Address, holds: Address -> bool, head: Address, index: nat, cycle: bool)
    requires Searched(next, holds, head, index, false, cycle)
    ensures WarningOf(index, cycle) == PathWarning(next, holds, head)
  {
    hide At, Searched, Tried, RepeatsInReach;
    WarningsExact(next, holds, head, index, cycle);
  }

  function WarningOf(index: nat, cycle: bool): Warning {
    if cycle then CycleWarning else if index >= MAX_PATH_ENTRIES then LimitWarning else NoWarning
  }

  /** main: `entry` answers lock_named_entry, `head` is the command path of the CLI if there is one. */
  method Resolve(name: CString, entry: string -> bool, cli: bool, head: Address,
                 next: Address -> Address, holds: Address -> bool)
    returns (code: int, answer: Answer)
    ensures code == if answer.NotFound? then 5 else 0
    ensures answer == Direct <==> (':' in name || '/' in name) && entry(name)
    ensures (':' in name || '/' in name) && !entry(name) ==> answer == NotFound(NoWarning)
    ensures answer == Current <==> !(':' in name || '/' in name) && entry(name)
    ensures answer.OnPath? <==> !(':' in name || '/' in name) && !entry(name) && cli && MatchInReach(next, holds, head)
    ensures answer == InC <==>
      !(':' in name || '/' in name) && !entry(name) && !(cli && MatchInReach(next, holds, head))
      && |name| <= 257 && entry("C:" + name)
    ensures !(':' in name || '/' in name) && cli ==> TrueOfPath(next, holds, head, answer)
    ensures !(':' in name || '/' in name) && cli && answer.NotFound? ==> answer == NotFound(PathWarning(next, holds, head))
    ensures !cli && answer.NotFound? ==> answer == NotFound(NoWarning)
  {
    hide Searched, MatchInReach, LeastMatch, NoMatch, NeverEnds, EndsWithin, Tried, RepeatsInReach, PathWarning;
    var index, hit, pathCycle := 0, false, false;
    var syntax := HasPathSyntax(name);
    if syntax {
      if entry(name) { return 0, Direct; }
      return 5, NotFound(NoWarning);
    }
    if entry(name) { return 0, Current; }
    if cli {
      index, hit, pathCycle := SearchPath(next, holds, head);
      HitMeansMatch(next, holds, head, index, hit, pathCycle);
      if hit { return 0, OnPath(index); }
      WarningIsTrue(next, holds, head, index, pathCycle);
      WarningIsDeserved(next, holds, head, index, pathCycle);
    }
    var candidate := new byte[CANDIDATE_LEN];
    var fits := BuildCandidate(candidate, name);
    if fits {
      var text := candidate[..|name| + 3];
      assert text[..|name| + 2] == "C:" + name;
      if entry(text[..|name| + 2]) { return 0, InC; }
    }
    code := 5;
    answer := NotFound(if pathCycle then CycleWarning else if index >= MAX_PATH_ENTRIES then LimitWarning else NoWarning);
  }
}
