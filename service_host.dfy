/**
 * The service registry shared by the gameplay host and the editor host: both
 * keep a list of service entries, an index from service type to list position,
 * and a start order computed by a dependency-aware selection loop.
 */
module ServiceHost {
  import opened Common

  type ServiceType = nat

  /** One registered service: its type, scheduling priority, declared dependencies and lifecycle flag. */
  datatype ServiceEntry = ServiceEntry(serviceType: ServiceType, priority: int, dependencies: seq<ServiceType>, initialized: bool)

  /** A lifecycle call made on a service instance, in the order the host makes it. */
  datatype ServiceCall = InitializeCall(target: ServiceType) | ShutdownCall(target: ServiceType)

  /** Every position stored in the type index names a slot of the list. */
  predicate IndexInRange(index: map<ServiceType, nat>, n: nat) {
    forall t :: t in index ==> index[t] < n
  }

  /** The type index names exactly the registered types, each at its own slot. */
  predicate IndexMatches(services: seq<ServiceEntry>, index: map<ServiceType, nat>) {
    (forall t :: t in index ==> index[t] < |services| && services[index[t]].serviceType == t)
    && (forall i :: 0 <= i < |services| ==> services[i].serviceType in index && index[services[i].serviceType] == i)
  }

  /** A start order lists distinct slots of the list. */
  predicate OrderWellFormed(order: seq<nat>, n: nat) {
    NoDuplicates(order) && forall k :: 0 <= k < |order| ==> order[k] < n
  }

  /** The resolved flags after the slots of `order` have been scheduled. */
  function Marks(order: seq<nat>, n: nat): (m: seq<bool>)
    ensures |m| == n
    ensures forall i :: 0 <= i < n ==> (m[i] <==> i in order)
  {
    seq(n, i => i in order)
  }

  lemma MarksSnoc(order: seq<nat>, b: nat, n: nat)
    requires b < n
    ensures Marks(order, n)[b := true] == Marks(order + [b], n)
  {
    var l := Marks(order, n)[b := true];
    var r := Marks(order + [b], n);
    forall i | 0 <= i < n ensures l[i] == r[i] {
      assert (i in order + [b]) <==> (i in order || i == b);
    }
  }

  // ---------------------------------------------------------------------
  // The start order
  // ---------------------------------------------------------------------

  /** Outcome of walking one service's dependency list. */
  datatype DepStatus = Ready | Waiting | Missing

  /**
   * Dependencies are examined in declaration order: the first one that is not
   * registered makes the whole build fail, the first one registered but not yet
   * resolved stops the walk.
   */
  function DepScan(deps: seq<ServiceType>, index: map<ServiceType, nat>, resolved: seq<bool>): (s: DepStatus)
    requires IndexInRange(index, |resolved|)
    ensures s == Missing ==> exists d :: d in deps && d !in index
    ensures s == Ready <==> forall d :: d in deps ==> d in index && resolved[index[d]]
  {
    if deps == [] then Ready
    else if deps[0] !in index then Missing
    else if !resolved[index[deps[0]]] then Waiting
    else
      var s := DepScan(deps[1..], index, resolved);
      assert forall d :: d in deps <==> d == deps[0] || d in deps[1..];
      s
  }

  /** `a` is chosen over `b`: strictly lower priority, or equal priority and no later slot. */
  predicate Precedes(services: seq<ServiceEntry>, a: nat, b: nat)
    requires a < |services| && b < |services|
  {
    services[a].priority < services[b].priority
    || (services[a].priority == services[b].priority && a <= b)
  }

  /**
   * One selection round over the slots below `k`: resolved slots are skipped, a
   * missing dependency aborts the round, and among the ready slots the one with
   * the lowest priority (then the lowest slot) is kept.
   */
  function Scan(services: seq<ServiceEntry>, index: map<ServiceType, nat>, resolved: seq<bool>, k: nat): (r: Result<Option<nat>>)
    requires k <= |services| == |resolved|
    requires IndexInRange(index, |resolved|)
    ensures r.Ok? && r.value.Some? ==> r.value.value < k
  {
    if k == 0 then Ok(None)
    else
      var i := k - 1;
      match Scan(services, index, resolved, i)
      case Err(e) => Err(e)
      case Ok(best) =>
        if resolved[i] then Ok(best)
        else match DepScan(services[i].dependencies, index, resolved)
          case Missing => Err(NotFound)
          case Waiting => Ok(best)
          case Ready =>
            if best.None? || services[i].priority < services[best.value].priority
              || (services[i].priority == services[best.value].priority && i < best.value)
            then Ok(Some(i))
            else Ok(best)
  }

  /**
   * What a round over the slots below `k` reports: a failure names an
   * unscheduled slot with a missing dependency, "none" means every unscheduled
   * slot is waiting, and a chosen slot is ready and precedes every other ready one.
   */
  ghost predicate ScanReport(services: seq<ServiceEntry>, index: map<ServiceType, nat>, resolved: seq<bool>, k: nat, r: Result<Option<nat>>)
    requires k <= |services| == |resolved|
    requires IndexInRange(index, |resolved|)
  {
    (r.Err? ==> (r.code == NotFound
      && exists i :: 0 <= i < k && !resolved[i] && DepScan(services[i].dependencies, index, resolved) == Missing))
    && (r == Ok(None) ==> forall i :: 0 <= i < k && !resolved[i] ==> DepScan(services[i].dependencies, index, resolved) == Waiting)
    && (r.Ok? && r.value.Some? ==> (r.value.value < k && !resolved[r.value.value]
      && DepScan(services[r.value.value].dependencies, index, resolved) == Ready
      && forall i :: 0 <= i < k && !resolved[i] && DepScan(services[i].dependencies, index, resolved) == Ready ==> Precedes(services, r.value.value, i)))
  }

  lemma {:induction false} ScanSound(services: seq<ServiceEntry>, index: map<ServiceType, nat>, resolved: seq<bool>, k: nat)
    requires k <= |services| == |resolved|
    requires IndexInRange(index, |resolved|)
    ensures ScanReport(services, index, resolved, k, Scan(services, index, resolved, k))
    decreases k
  {
    if k > 0 {
      ScanSound(services, index, resolved, k - 1);
      ScanSoundStep(services, index, resolved, k);
    }
  }

  /** One more slot keeps the report of a round truthful. */
  lemma ScanSoundStep(services: seq<ServiceEntry>, index: map<ServiceType, nat>, resolved: seq<bool>, k: nat)
    requires 0 < k <= |services| == |resolved|
    requires IndexInRange(index, |resolved|)
    requires ScanReport(services, index, resolved, k - 1, Scan(services, index, resolved, k - 1))
    ensures ScanReport(services, index, resolved, k, Scan(services, index, resolved, k))
  {
  }

  /** Once a round has failed at some slot, scanning further slots keeps that failure. */
  lemma {:induction false} ScanFailureStays(services: seq<ServiceEntry>, index: map<ServiceType, nat>, resolved: seq<bool>, k: nat, m: nat)
    requires k <= m <= |services| == |resolved|
    requires IndexInRange(index, |resolved|)
    requires Scan(services, index, resolved, k).Err?
    ensures Scan(services, index, resolved, m) == Scan(services, index, resolved, k)
    decreases m - k
  {
    if k < m {
      ScanFailureStays(services, index, resolved, k, m - 1);
      ScanAfterFailure(services, index, resolved, m);
    }
  }

  /** One more slot after a failed prefix changes nothing. */
  lemma ScanAfterFailure(services: seq<ServiceEntry>, index: map<ServiceType, nat>, resolved: seq<bool>, m: nat)
    requires 0 < m <= |services| == |resolved|
    requires IndexInRange(index, |resolved|)
    requires Scan(services, index, resolved, m - 1).Err?
    ensures Scan(services, index, resolved, m) == Scan(services, index, resolved, m - 1)
  {
  }

  /**
   * The remaining `rounds` selection rounds, starting from the slots already in
   * `order`; the second component is the order built so far, which is also what
   * the host keeps when a round fails.
   */
  function OrderFrom(services: seq<ServiceEntry>, index: map<ServiceType, nat>, order: seq<nat>, rounds: nat): (r: (Outcome, seq<nat>))
    requires IndexInRange(index, |services|)
    decreases rounds
  {
    if rounds == 0 then (Done, order)
    else match Scan(services, index, Marks(order, |services|), |services|)
      case Err(e) => (Fail(e), order)
      case Ok(None) => (Fail(InternalError), order)
      case Ok(Some(b)) => OrderFrom(services, index, order + [b], rounds - 1)
  }

  /** The start order of the registered services, or why none exists. */
  function BuildOrder(services: seq<ServiceEntry>, index: map<ServiceType, nat>): (r: (Outcome, seq<nat>))
    requires IndexInRange(index, |services|)
  {
    OrderFrom(services, index, [], |services|)
  }

  /** Slot `order[p]` was a legal choice once the slots before it had been scheduled. */
  ghost predicate ScheduleStep(services: seq<ServiceEntry>, index: map<ServiceType, nat>, order: seq<nat>, p: nat)
    requires IndexInRange(index, |services|)
    requires p < |order|
  {
    var before := Marks(order[..p], |services|);
    order[p] < |services|
    && DepScan(services[order[p]].dependencies, index, before) == Ready
    && forall i :: 0 <= i < |services| && !before[i] && DepScan(services[i].dependencies, index, before) == Ready ==> Precedes(services, order[p], i)
  }

  /** The rounds only append to the order they start from. */
  lemma {:induction false} OrderFromPrefix(services: seq<ServiceEntry>, index: map<ServiceType, nat>, order: seq<nat>, rounds: nat)
    requires IndexInRange(index, |services|)
    ensures var fin := OrderFrom(services, index, order, rounds).1;
      |order| <= |fin| && fin[..|order|] == order
    decreases rounds
  {
    if rounds > 0 {
      var n := |services|;
      match Scan(services, index, Marks(order, n), n)
      case Err(e) =>
      case Ok(None) =>
      case Ok(Some(b)) =>
        OrderFromChosen(services, index, order, rounds, b);
        var next := order + [b];
        OrderFromPrefix(services, index, next, rounds - 1);
        var fin := OrderFrom(services, index, next, rounds - 1).1;
        assert fin[..|order|] == fin[..|next|][..|order|];
    }
  }

  /** The rounds keep the order's slots distinct and add one slot per successful round. */
  lemma {:induction false} OrderFromExtends(services: seq<ServiceEntry>, index: map<ServiceType, nat>, order: seq<nat>, rounds: nat)
    requires IndexInRange(index, |services|)
    requires OrderWellFormed(order, |services|)
    ensures var built := OrderFrom(services, index, order, rounds); var o := built.0; var fin := built.1;
      OrderWellFormed(fin, |services|)
      && (o == Done ==> |fin| == |order| + rounds)
      && (o.Fail? ==> |order| <= |fin| < |order| + rounds)
    decreases rounds
  {
    if rounds > 0 {
      var n := |services|;
      match Scan(services, index, Marks(order, n), n)
      case Err(e) =>
      case Ok(None) =>
      case Ok(Some(b)) =>
        OrderFromChosen(services, index, order, rounds, b);
        ChosenExtendsOrder(services, index, order, b);
        OrderFromExtends(services, index, order + [b], rounds - 1);
    }
  }

  /** A round that chooses `b` hands the remaining rounds the order extended by `b`. */
  lemma OrderFromChosen(services: seq<ServiceEntry>, index: map<ServiceType, nat>, order: seq<nat>, rounds: nat, b: nat)
    requires IndexInRange(index, |services|)
    requires rounds > 0 && Scan(services, index, Marks(order, |services|), |services|) == Ok(Some(b))
    ensures OrderFrom(services, index, order, rounds) == OrderFrom(services, index, order + [b], rounds - 1)
  {
  }

  /** The slot a round chooses is a new one, so the order stays well formed. */
  lemma ChosenExtendsOrder(services: seq<ServiceEntry>, index: map<ServiceType, nat>, order: seq<nat>, b: nat)
    requires IndexInRange(index, |services|)
    requires OrderWellFormed(order, |services|)
    requires Scan(services, index, Marks(order, |services|), |services|) == Ok(Some(b))
    ensures OrderWellFormed(order + [b], |services|)
  {
    var marks := Marks(order, |services|);
    ScanSound(services, index, marks, |services|);
    forall q | 0 <= q < |order| ensures order[q] != b {
      assert marks[order[q]];
    }
  }

  /** The slot a round chooses, placed right after the order it was chosen for, is a legal step. */
  lemma ChosenIsStep(services: seq<ServiceEntry>, index: map<ServiceType, nat>, order: seq<nat>, fin: seq<nat>, b: nat)
    requires IndexInRange(index, |services|)
    requires Scan(services, index, Marks(order, |services|), |services|) == Ok(Some(b))
    requires |order| < |fin| && fin[..|order|] == order && fin[|order|] == b
    ensures ScheduleStep(services, index, fin, |order|)
  {
    ScanSound(services, index, Marks(order, |services|), |services|);
  }

  /** Every slot of `order` from position `lo` on was a legal choice of its round. */
  ghost predicate StepsFrom(services: seq<ServiceEntry>, index: map<ServiceType, nat>, order: seq<nat>, lo: nat)
    requires IndexInRange(index, |services|)
  {
    forall p :: lo <= p < |order| ==> ScheduleStep(services, index, order, p)
  }

  lemma StepsFromEarlier(services: seq<ServiceEntry>, index: map<ServiceType, nat>, order: seq<nat>, lo: nat)
    requires IndexInRange(index, |services|)
    requires lo < |order| && ScheduleStep(services, index, order, lo) && StepsFrom(services, index, order, lo + 1)
    ensures StepsFrom(services, index, order, lo)
  {
    forall p | lo <= p < |order| ensures ScheduleStep(services, index, order, p) {
      if p > lo {
        assert lo + 1 <= p;
      }
    }
  }

  /** Each slot the rounds add was a legal choice of its round. */
  lemma {:induction false} OrderFromSteps(services: seq<ServiceEntry>, index: map<ServiceType, nat>, order: seq<nat>, rounds: nat)
    requires IndexInRange(index, |services|)
    ensures StepsFrom(services, index, OrderFrom(services, index, order, rounds).1, |order|)
    decreases rounds
  {
    if rounds > 0 {
      var n := |services|;
      match Scan(services, index, Marks(order, n), n)
      case Err(e) =>
      case Ok(None) =>
      case Ok(Some(b)) =>
        OrderFromSteps(services, index, order + [b], rounds - 1);
        ChosenRoundStep(services, index, order, rounds, b);
    }
  }

  /** A round that chooses `b` adds a legal step in front of the later rounds' steps. */
  lemma ChosenRoundStep(services: seq<ServiceEntry>, index: map<ServiceType, nat>, order: seq<nat>, rounds: nat, b: nat)
    requires IndexInRange(index, |services|)
    requires rounds > 0 && Scan(services, index, Marks(order, |services|), |services|) == Ok(Some(b))
    requires StepsFrom(services, index, OrderFrom(services, index, order + [b], rounds - 1).1, |order| + 1)
    ensures StepsFrom(services, index, OrderFrom(services, index, order, rounds).1, |order|)
  {
    OrderFromChosen(services, index, order, rounds, b);
    var next := order + [b];
    OrderFromPrefix(services, index, next, rounds - 1);
    var fin := OrderFrom(services, index, next, rounds - 1).1;
    assert fin[..|order|] == fin[..|next|][..|order|];
    assert fin[|order|] == fin[..|next|][|order|];
    ChosenIsStep(services, index, order, fin, b);
    StepsFromEarlier(services, index, fin, |order|);
  }

  /** A round that fails names an unscheduled service with a missing dependency. */
  lemma RoundMissing(services: seq<ServiceEntry>, index: map<ServiceType, nat>, order: seq<nat>)
    requires IndexInRange(index, |services|)
    requires Scan(services, index, Marks(order, |services|), |services|).Err?
    ensures Scan(services, index, Marks(order, |services|), |services|) == Err(NotFound)
    ensures exists i :: 0 <= i < |services| && i !in order && DepScan(services[i].dependencies, index, Marks(order, |services|)) == Missing
  {
    var marks := Marks(order, |services|);
    ScanSound(services, index, marks, |services|);
    var i :| 0 <= i < |services| && !marks[i] && DepScan(services[i].dependencies, index, marks) == Missing;
    assert i !in order;
  }

  /** A round that finds nothing ready leaves every unscheduled service waiting. */
  lemma RoundStuck(services: seq<ServiceEntry>, index: map<ServiceType, nat>, order: seq<nat>)
    requires IndexInRange(index, |services|)
    requires Scan(services, index, Marks(order, |services|), |services|) == Ok(None)
    ensures forall i :: 0 <= i < |services| && i !in order ==> DepScan(services[i].dependencies, index, Marks(order, |services|)) == Waiting
  {
    var marks := Marks(order, |services|);
    ScanSound(services, index, marks, |services|);
    forall i | 0 <= i < |services| && i !in order ensures DepScan(services[i].dependencies, index, marks) == Waiting {
      assert !marks[i];
    }
  }

  /**
   * Why a build stops: only for a missing dependency, some unscheduled service
   * naming an unregistered type, or for want of a ready service, every
   * unscheduled one still waiting.
   */
  ghost predicate FailureExplained(services: seq<ServiceEntry>, index: map<ServiceType, nat>, o: Outcome, fin: seq<nat>)
    requires IndexInRange(index, |services|)
  {
    (o.Fail? ==> o == Fail(NotFound) || o == Fail(InternalError))
    && (o == Fail(InternalError) ==>
          forall i :: 0 <= i < |services| && i !in fin ==> DepScan(services[i].dependencies, index, Marks(fin, |services|)) == Waiting)
    && (o == Fail(NotFound) ==>
          exists i :: 0 <= i < |services| && i !in fin && DepScan(services[i].dependencies, index, Marks(fin, |services|)) == Missing)
  }

  lemma {:induction false} OrderFromFailures(services: seq<ServiceEntry>, index: map<ServiceType, nat>, order: seq<nat>, rounds: nat)
    requires IndexInRange(index, |services|)
    ensures FailureExplained(services, index, OrderFrom(services, index, order, rounds).0, OrderFrom(services, index, order, rounds).1)
    decreases rounds
  {
    if rounds > 0 {
      var n := |services|;
      match Scan(services, index, Marks(order, n), n)
      case Err(e) =>
        RoundMissing(services, index, order);
      case Ok(None) =>
        RoundStuck(services, index, order);
      case Ok(Some(b)) =>
        OrderFromFailures(services, index, order + [b], rounds - 1);
    }
  }

  /** Distinct slots below `n`, `n` of them, are all the slots below `n`. */
  lemma FullOrderCovers(order: seq<nat>, n: nat)
    requires OrderWellFormed(order, n) && |order| == n
    ensures forall i :: 0 <= i < n ==> i in order
  {
    DistinctCard(order);
    var elems := set k | 0 <= k < |order| :: order[k];
    assert elems <= Below(n);
    assert |Below(n) - elems| == 0;
    forall i | 0 <= i < n ensures i in order {
      assert i in Below(n);
      assert i !in Below(n) - elems;
    }
  }

  /**
   * A successful build schedules every registered service exactly once, each
   * after all of its dependencies, and each as the lowest-priority ready slot of
   * its round.
   */
  lemma BuildOrderSchedulesAll(services: seq<ServiceEntry>, index: map<ServiceType, nat>)
    requires IndexInRange(index, |services|)
    requires BuildOrder(services, index).0 == Done
    ensures var order := BuildOrder(services, index).1;
      |order| == |services| && OrderWellFormed(order, |services|)
      && (forall i :: 0 <= i < |services| ==> i in order)
      && (forall p :: 0 <= p < |order| ==> ScheduleStep(services, index, order, p))
  {
    OrderFromExtends(services, index, [], |services|);
    OrderFromSteps(services, index, [], |services|);
    assert StepsFrom(services, index, BuildOrder(services, index).1, 0);
    FullOrderCovers(BuildOrder(services, index).1, |services|);
  }

  /** A legal choice has every dependency registered and scheduled before it. */
  lemma StepDependenciesBefore(services: seq<ServiceEntry>, index: map<ServiceType, nat>, order: seq<nat>, p: nat)
    requires IndexInRange(index, |services|)
    requires p < |order| && order[p] < |services|
    requires ScheduleStep(services, index, order, p)
    ensures forall d :: d in services[order[p]].dependencies ==> d in index && index[d] in order[..p]
  {
    var before := Marks(order[..p], |services|);
    assert DepScan(services[order[p]].dependencies, index, before) == Ready;
  }

  /** In a successful build every dependency of a service is registered and scheduled before it. */
  lemma DependenciesStartFirst(services: seq<ServiceEntry>, index: map<ServiceType, nat>)
    requires IndexInRange(index, |services|)
    requires BuildOrder(services, index).0 == Done
    ensures var order := BuildOrder(services, index).1;
      OrderWellFormed(order, |services|)
      && forall p, d :: 0 <= p < |order| && d in services[order[p]].dependencies ==> d in index && index[d] in order[..p]
  {
    BuildOrderSchedulesAll(services, index);
    var order := BuildOrder(services, index).1;
    forall p | 0 <= p < |order| ensures forall d :: d in services[order[p]].dependencies ==> d in index && index[d] in order[..p] {
      StepDependenciesBefore(services, index, order, p);
    }
  }

  /** A build can only fail for a missing dependency or for dependencies that can never be met. */
  lemma BuildOrderFailures(services: seq<ServiceEntry>, index: map<ServiceType, nat>)
    requires IndexInRange(index, |services|)
    ensures var built := BuildOrder(services, index); var o := built.0; var order := built.1;
      OrderWellFormed(order, |services|)
      && (o.Fail? ==> o == Fail(NotFound) || o == Fail(InternalError))
      && (o == Fail(NotFound) ==> exists i, d :: 0 <= i < |services| && d in services[i].dependencies && d !in index)
      && (o == Fail(InternalError) ==> (|order| < |services|
            && forall i :: 0 <= i < |services| && i !in order ==> DepScan(services[i].dependencies, index, Marks(order, |services|)) == Waiting))
  {
    OrderFromExtends(services, index, [], |services|);
    OrderFromFailures(services, index, [], |services|);
  }

  /** Every dependency of every service is registered whenever the build succeeds. */
  lemma BuildOrderNeedsRegisteredDependencies(services: seq<ServiceEntry>, index: map<ServiceType, nat>)
    requires IndexInRange(index, |services|)
    requires BuildOrder(services, index).0 == Done
    ensures forall i, d :: 0 <= i < |services| && d in services[i].dependencies ==> d in index
  {
    BuildOrderSchedulesAll(services, index);
    DependenciesStartFirst(services, index);
    var order := BuildOrder(services, index).1;
    forall i, d | 0 <= i < |services| && d in services[i].dependencies ensures d in index {
      assert i in order;
      var p :| 0 <= p < |order| && order[p] == i;
    }
  }

  /** Services without dependencies always get a start order, which is then sorted by priority and slot. */
  lemma {:induction false} IndependentServicesSchedule(services: seq<ServiceEntry>, index: map<ServiceType, nat>, order: seq<nat>, rounds: nat)
    requires IndexInRange(index, |services|)
    requires forall i :: 0 <= i < |services| ==> services[i].dependencies == []
    requires OrderWellFormed(order, |services|) && |order| + rounds <= |services|
    ensures OrderFrom(services, index, order, rounds).0 == Done
    decreases rounds
  {
    if rounds > 0 {
      var n := |services|;
      var resolved := Marks(order, n);
      var free := PickFree(order, n);
      assert DepScan(services[free].dependencies, index, resolved) == Ready;
      ScanSound(services, index, resolved, n);
      match Scan(services, index, resolved, n)
      case Ok(Some(b)) =>
        var next := order + [b];
        assert OrderWellFormed(next, n) by {
          forall q | 0 <= q < |order| ensures order[q] != b {
            assert resolved[order[q]];
          }
        }
        IndependentServicesSchedule(services, index, next, rounds - 1);
    }
  }

  /** A slot below `n` that a short well-formed order has not used yet. */
  lemma PickFree(order: seq<nat>, n: nat) returns (free: nat)
    requires OrderWellFormed(order, n) && |order| < n
    ensures free < n && free !in order
  {
    DistinctCard(order);
    var elems := set k | 0 <= k < |order| :: order[k];
    assert elems <= Below(n);
    assert |Below(n) - elems| > 0;
    var x :| x in Below(n) - elems;
    free := x;
  }

  /** The dependency walk of one service, in declaration order. */
  method CheckDependencies(deps: seq<ServiceType>, index: map<ServiceType, nat>, resolved: seq<bool>) returns (status: DepStatus)
    requires IndexInRange(index, |resolved|)
    ensures status == DepScan(deps, index, resolved)
  {
    var j := 0;
    while j < |deps|
      invariant j <= |deps|
      invariant DepScan(deps, index, resolved) == DepScan(deps[j..], index, resolved)
    {
      assert deps[j..][1..] == deps[j + 1..];
      if deps[j] !in index {
        return Missing;
      }
      if !resolved[index[deps[j]]] {
        return Waiting;
      }
      j := j + 1;
    }
    return Ready;
  }

  /** One selection round: the best ready slot, none, or the missing-dependency failure. */
  method SelectNext(services: seq<ServiceEntry>, index: map<ServiceType, nat>, resolved: seq<bool>) returns (r: Result<Option<nat>>)
    requires |resolved| == |services|
    requires IndexInRange(index, |services|)
    ensures r == Scan(services, index, resolved, |services|)
  {
    var n := |services|;
    var bestIndex := n;
    var bestPriority := 0;
    var i := 0;
    while i < n
      invariant i <= n && bestIndex <= n
      invariant Scan(services, index, resolved, i) == Ok(if bestIndex == n then None else Some(bestIndex))
      invariant bestIndex < n ==> bestPriority == services[bestIndex].priority
    {
      if !resolved[i] {
        var status := CheckDependencies(services[i].dependencies, index, resolved);
        if status == Missing {
          ScanFailureStays(services, index, resolved, i + 1, n);
          return Err(NotFound);
        }
        if status == Ready {
          var candidatePriority := services[i].priority;
          if bestIndex == n || candidatePriority < bestPriority || (candidatePriority == bestPriority && i < bestIndex) {
            bestIndex := i;
            bestPriority := candidatePriority;
          }
        }
      }
      i := i + 1;
    }
    r := Ok(if bestIndex == n then None else Some(bestIndex));
  }

  // ---------------------------------------------------------------------
  // Removing a service together with everything that depends on it
  // ---------------------------------------------------------------------

  /** Service `j` lists the type of service `c` among its dependencies. */
  predicate DependsOn(services: seq<ServiceEntry>, j: nat, c: nat)
    requires j < |services| && c < |services|
  {
    services[c].serviceType in services[j].dependencies
  }

  /** No service outside the mask depends on a service inside it. */
  predicate ClosedUnderDependents(services: seq<ServiceEntry>, mask: seq<bool>)
    requires |mask| == |services|
  {
    forall c, j :: 0 <= c < |services| && 0 <= j < |services| && mask[c] && DependsOn(services, j, c) ==> mask[j]
  }

  /** Every slot of `chain` after the first depends on an earlier one; the first is `target`. */
  ghost predicate DependencyChain(services: seq<ServiceEntry>, target: nat, chain: seq<nat>) {
    |chain| > 0 && chain[0] == target && OrderWellFormed(chain, |services|) && ChainJustified(services, chain)
  }

  /**
   * What a dependency chain reaches lies inside every dependent-closed set that
   * holds the target: the removal mask is the least such set.
   */
  lemma {:induction false} ChainInsideClosedSet(services: seq<ServiceEntry>, target: nat, chain: seq<nat>, closed: set<nat>, k: nat)
    requires DependencyChain(services, target, chain)
    requires target in closed
    requires forall c: nat, j: nat :: c in closed && c < |services| && j < |services| && DependsOn(services, j, c) ==> j in closed
    requires k < |chain|
    ensures chain[k] in closed
    decreases k
  {
    if k > 0 {
      assert JustifiedAt(services, chain, k);
      var m :| 0 <= m < k && DependsOn(services, chain[k], chain[m]);
      ChainInsideClosedSet(services, target, chain, closed, m);
    }
  }

  /** The unmarked services that depend on `current`, to be visited next. */
  method DependentsToVisit(services: seq<ServiceEntry>, mask: seq<bool>, current: nat) returns (added: seq<nat>)
    requires |mask| == |services| && current < |services|
    ensures forall q :: 0 <= q < |added| ==> added[q] < |services| && !mask[added[q]] && DependsOn(services, added[q], current)
    ensures forall j :: 0 <= j < |services| && !mask[j] && DependsOn(services, j, current) ==> j in added
  {
    added := [];
    var candidate := 0;
    while candidate < |services|
      invariant candidate <= |services|
      invariant forall q :: 0 <= q < |added| ==> added[q] < candidate && !mask[added[q]] && DependsOn(services, added[q], current)
      invariant forall j :: 0 <= j < candidate && !mask[j] && DependsOn(services, j, current) ==> j in added
    {
      if !mask[candidate] && services[current].serviceType in services[candidate].dependencies {
        added := added + [candidate];
      }
      candidate := candidate + 1;
    }
  }

  /** Each slot of `chain` after the first depends on an earlier slot of it. */
  ghost predicate ChainJustified(services: seq<ServiceEntry>, chain: seq<nat>)
    requires OrderWellFormed(chain, |services|)
  {
    forall k :: 0 < k < |chain| ==> JustifiedAt(services, chain, k)
  }

  /** The slot at position `k` of the chain depends on a slot marked before it. */
  ghost predicate JustifiedAt(services: seq<ServiceEntry>, chain: seq<nat>, k: nat)
    requires OrderWellFormed(chain, |services|) && k < |chain|
  {
    exists m :: 0 <= m < k && DependsOn(services, chain[k], chain[m])
  }

  /** Each pending slot is the target or depends on a marked slot. */
  ghost predicate PendingJustified(services: seq<ServiceEntry>, target: nat, chain: seq<nat>, pending: seq<nat>)
    requires OrderWellFormed(chain, |services|)
    requires forall q :: 0 <= q < |pending| ==> pending[q] < |services|
  {
    forall q :: 0 <= q < |pending| ==> pending[q] == target || exists m :: 0 <= m < |chain| && DependsOn(services, pending[q], chain[m])
  }

  /** Every dependent of a marked slot is marked or pending. */
  ghost predicate ClosedOrPending(services: seq<ServiceEntry>, chain: seq<nat>, pending: seq<nat>) {
    forall c: nat, j: nat :: c < |services| && j < |services| && c in chain && DependsOn(services, j, c) ==> j in chain || j in pending
  }

  /**
   * The worklist state: `chain` lists the services marked so far in marking
   * order, each justified by an earlier one, and every dependent of a marked
   * service is marked or still pending.
   */
  ghost predicate Worklist(services: seq<ServiceEntry>, target: nat, chain: seq<nat>, pending: seq<nat>) {
    var n := |services|;
    OrderWellFormed(chain, n) && |chain| <= n
    && (forall q :: 0 <= q < |pending| ==> pending[q] < n)
    && (chain == [] ==> pending == [target])
    && (chain != [] ==> chain[0] == target)
    && ChainJustified(services, chain)
    && PendingJustified(services, target, chain, pending)
    && ClosedOrPending(services, chain, pending)
  }

  /** Popping a slot that is already marked keeps the worklist state. */
  lemma PopMarked(services: seq<ServiceEntry>, target: nat, chain: seq<nat>, pending: seq<nat>)
    requires Worklist(services, target, chain, pending)
    requires pending != [] && pending[|pending| - 1] in chain
    ensures Worklist(services, target, chain, pending[..|pending| - 1])
  {
    assert chain != [];
    PopKeepsJustified(services, target, chain, pending);
    PopKeepsClosed(services, chain, pending);
  }

  lemma PopKeepsJustified(services: seq<ServiceEntry>, target: nat, chain: seq<nat>, pending: seq<nat>)
    requires OrderWellFormed(chain, |services|) && pending != []
    requires forall q :: 0 <= q < |pending| ==> pending[q] < |services|
    requires PendingJustified(services, target, chain, pending)
    ensures PendingJustified(services, target, chain, pending[..|pending| - 1])
  {
    var rest := pending[..|pending| - 1];
    assert forall q :: 0 <= q < |rest| ==> rest[q] == pending[q];
  }

  lemma PopKeepsClosed(services: seq<ServiceEntry>, chain: seq<nat>, pending: seq<nat>)
    requires pending != [] && pending[|pending| - 1] in chain
    requires ClosedOrPending(services, chain, pending)
    ensures ClosedOrPending(services, chain, pending[..|pending| - 1])
  {
    var rest := pending[..|pending| - 1];
    assert pending == rest + [pending[|pending| - 1]];
    assert forall x :: x in pending ==> x in chain || x in rest;
  }


  lemma MarkKeepsChainJustified(services: seq<ServiceEntry>, chain: seq<nat>, current: nat)
    requires current < |services|
    requires OrderWellFormed(chain, |services|) && OrderWellFormed(chain + [current], |services|)
    requires ChainJustified(services, chain)
    requires chain != [] ==> exists m :: 0 <= m < |chain| && DependsOn(services, current, chain[m])
    ensures ChainJustified(services, chain + [current])
  {
    var chain' := chain + [current];
    forall k | 0 < k < |chain'| ensures JustifiedAt(services, chain', k) {
      if k < |chain| {
        assert JustifiedAt(services, chain, k);
        var m :| 0 <= m < k && DependsOn(services, chain[k], chain[m]);
        assert DependsOn(services, chain'[k], chain'[m]);
      } else {
        var m :| 0 <= m < |chain| && DependsOn(services, current, chain[m]);
        assert DependsOn(services, chain'[k], chain'[m]);
      }
    }
  }

  lemma MarkKeepsPendingJustified(services: seq<ServiceEntry>, target: nat, chain: seq<nat>, rest: seq<nat>, current: nat, added: seq<nat>)
    requires current < |services|
    requires OrderWellFormed(chain, |services|) && OrderWellFormed(chain + [current], |services|)
    requires forall q :: 0 <= q < |rest| ==> rest[q] < |services|
    requires PendingJustified(services, target, chain, rest)
    requires forall q :: 0 <= q < |added| ==> added[q] < |services| && DependsOn(services, added[q], current)
    ensures PendingJustified(services, target, chain + [current], rest + added)
  {
    var chain' := chain + [current];
    var pending' := rest + added;
    forall q | 0 <= q < |pending'|
      ensures pending'[q] == target || exists m :: 0 <= m < |chain'| && DependsOn(services, pending'[q], chain'[m])
    {
      if q < |rest| {
        if rest[q] != target {
          var m :| 0 <= m < |chain| && DependsOn(services, rest[q], chain[m]);
          assert chain'[m] == chain[m];
        }
      } else {
        assert DependsOn(services, pending'[q], chain'[|chain|]);
      }
    }
  }

  lemma MarkKeepsClosedOrPending(services: seq<ServiceEntry>, chain: seq<nat>, pending: seq<nat>, added: seq<nat>)
    requires pending != []
    requires ClosedOrPending(services, chain, pending)
    requires var current := pending[|pending| - 1];
      current < |services|
      && forall j :: 0 <= j < |services| && j !in chain + [current] && DependsOn(services, j, current) ==> j in added
    ensures ClosedOrPending(services, chain + [pending[|pending| - 1]], pending[..|pending| - 1] + added)
  {
    var current := pending[|pending| - 1];
    var rest := pending[..|pending| - 1];
    var chain' := chain + [current];
    assert forall x :: x in pending ==> x == current || x in rest;
    forall c: nat, j: nat | c < |services| && j < |services| && c in chain' && DependsOn(services, j, c)
      ensures j in chain' || j in rest + added
    {
      if c != current {
        assert c in chain;
      }
    }
  }

  /** The marked slots stay distinct, and the target stays first. */
  lemma MarkKeepsShape(services: seq<ServiceEntry>, target: nat, chain: seq<nat>, pending: seq<nat>)
    requires Worklist(services, target, chain, pending)
    requires pending != [] && pending[|pending| - 1] !in chain
    ensures var chain' := chain + [pending[|pending| - 1]];
      OrderWellFormed(chain', |services|) && |chain'| <= |services| && chain'[0] == target
    ensures chain != [] ==> exists m :: 0 <= m < |chain| && DependsOn(services, pending[|pending| - 1], chain[m])
  {
    var chain' := chain + [pending[|pending| - 1]];
    assert OrderWellFormed(chain', |services|);
    DistinctBelowBound(chain', |services|);
    assert PendingJustified(services, target, chain, pending);
  }

  /** Popping an unmarked slot, marking it and queueing its unmarked dependents keeps the worklist state. */
  lemma PopAndMark(services: seq<ServiceEntry>, target: nat, chain: seq<nat>, pending: seq<nat>, added: seq<nat>)
    requires Worklist(services, target, chain, pending)
    requires pending != [] && pending[|pending| - 1] !in chain
    requires var current := pending[|pending| - 1];
      (forall q :: 0 <= q < |added| ==> added[q] < |services| && DependsOn(services, added[q], current))
      && (forall j :: 0 <= j < |services| && j !in chain + [current] && DependsOn(services, j, current) ==> j in added)
    ensures Worklist(services, target, chain + [pending[|pending| - 1]], pending[..|pending| - 1] + added)
  {
    var current := pending[|pending| - 1];
    var rest := pending[..|pending| - 1];
    MarkKeepsShape(services, target, chain, pending);
    MarkKeepsChainJustified(services, chain, current);
    assert PendingJustified(services, target, chain, rest);
    MarkKeepsPendingJustified(services, target, chain, rest, current, added);
    MarkKeepsClosedOrPending(services, chain, pending, added);
  }

  /**
   * The worklist walk that marks the target service and, transitively, every
   * service that depends on a marked one.
   */
  method DependentsOf(services: seq<ServiceEntry>, target: nat) returns (mask: seq<bool>, ghost chain: seq<nat>)
    requires target < |services|
    ensures |mask| == |services| && mask == Marks(chain, |services|)
    ensures DependencyChain(services, target, chain)
    ensures ClosedUnderDependents(services, mask)
  {
    var n := |services|;
    mask := seq(n, _ => false);
    chain := [];
    var pending := [target];
    while pending != []
      invariant mask == Marks(chain, n)
      invariant Worklist(services, target, chain, pending)
      decreases n - |chain|, |pending|
    {
      var current := pending[|pending| - 1];
      if mask[current] {
        PopMarked(services, target, chain, pending);
        pending := pending[..|pending| - 1];
        continue;
      }
      MarksSnoc(chain, current, n);
      var next := mask[current := true];
      var added := DependentsToVisit(services, next, current);
      PopAndMark(services, target, chain, pending, added);
      mask := next;
      chain := chain + [current];
      pending := pending[..|pending| - 1] + added;
    }
  }

  /** The slots a mask leaves in place, in increasing order. */
  function KeptSlots(mask: seq<bool>): (slots: seq<nat>)
    ensures forall q :: 0 <= q < |slots| ==> slots[q] < |mask| && !mask[slots[q]]
    ensures forall i :: 0 <= i < |mask| && !mask[i] ==> i in slots
    ensures forall q, q' :: 0 <= q < q' < |slots| ==> slots[q] < slots[q']
  {
    if mask == [] then []
    else
      var last := |mask| - 1;
      var prefix := KeptSlots(mask[..last]);
      if mask[last] then prefix else prefix + [last]
  }

  /** The services that survive a removal, in their original relative order. */
  function Survivors(services: seq<ServiceEntry>, mask: seq<bool>): (r: seq<ServiceEntry>)
    requires |mask| <= |services|
  {
    var slots := KeptSlots(mask);
    seq(|slots|, q requires 0 <= q < |slots| => services[slots[q]])
  }

  // ---------------------------------------------------------------------
  // Initialisation with rollback, and shutdown
  // ---------------------------------------------------------------------

  /** Two service lists that differ at most in their lifecycle flags. */
  predicate SameServices(a: seq<ServiceEntry>, b: seq<ServiceEntry>) {
    |a| == |b|
    && forall i :: 0 <= i < |a| ==>
      a[i].serviceType == b[i].serviceType && a[i].priority == b[i].priority && a[i].dependencies == b[i].dependencies
  }

  /** The slots of `order` whose services are not initialized yet, in order. */
  function Pending(services: seq<ServiceEntry>, order: seq<nat>): (p: seq<nat>)
    requires forall k :: 0 <= k < |order| ==> order[k] < |services|
    ensures forall q :: 0 <= q < |p| ==> p[q] < |services| && !services[p[q]].initialized
  {
    if order == [] then []
    else
      var last := order[|order| - 1];
      var prefix := Pending(services, order[..|order| - 1]);
      if services[last].initialized then prefix else prefix + [last]
  }

  /** The pending slots are exactly the stopped slots of the order. */
  lemma {:induction false} PendingMembers(services: seq<ServiceEntry>, order: seq<nat>)
    requires forall k :: 0 <= k < |order| ==> order[k] < |services|
    ensures forall q :: 0 <= q < |Pending(services, order)| ==> Pending(services, order)[q] in order
    ensures forall k :: 0 <= k < |order| && !services[order[k]].initialized ==> order[k] in Pending(services, order)
    decreases |order|
  {
    if order != [] {
      var prefix := order[..|order| - 1];
      PendingMembers(services, prefix);
      var p := Pending(services, order);
      var head := Pending(services, prefix);
      assert forall k :: 0 <= k < |order| - 1 ==> order[k] == prefix[k];
      assert forall x :: x in prefix ==> x in order;
      assert forall x :: x in head ==> x in p;
      assert forall q :: 0 <= q < |p| ==> p[q] in head || p[q] == order[|order| - 1];
    }
  }

  lemma {:induction false} PendingAppend(services: seq<ServiceEntry>, a: seq<nat>, b: seq<nat>)
    requires forall k :: 0 <= k < |a| ==> a[k] < |services|
    requires forall k :: 0 <= k < |b| ==> b[k] < |services|
    ensures Pending(services, a + b) == Pending(services, a) + Pending(services, b)
    decreases |b|
  {
    if b != [] {
      var b' := b[..|b| - 1];
      assert (a + b)[..|a + b| - 1] == a + b';
      PendingAppend(services, a, b');
    } else {
      assert a + b == a;
    }
  }

  lemma {:induction false} PendingDistinct(services: seq<ServiceEntry>, order: seq<nat>)
    requires OrderWellFormed(order, |services|)
    ensures OrderWellFormed(Pending(services, order), |services|)
    decreases |order|
  {
    if order != [] {
      var prefix := order[..|order| - 1];
      assert OrderWellFormed(prefix, |services|);
      PendingDistinct(services, prefix);
      PendingMembers(services, prefix);
      assert order[|order| - 1] !in prefix;
      var head := Pending(services, prefix);
      forall q | 0 <= q < |head| ensures head[q] != order[|order| - 1] {
        assert head[q] in prefix;
      }
    }
  }

  /** How many pending services start successfully before the first failure. */
  function LeadingSuccesses(services: seq<ServiceEntry>, p: seq<nat>, initResult: ServiceType -> Outcome): (s: nat)
    requires forall q :: 0 <= q < |p| ==> p[q] < |services|
    ensures s <= |p|
    ensures forall q :: 0 <= q < s ==> initResult(services[p[q]].serviceType) == Done
    ensures s < |p| ==> initResult(services[p[s]].serviceType).Fail?
  {
    if p == [] || initResult(services[p[0]].serviceType).Fail? then 0
    else 1 + LeadingSuccesses(services, p[1..], initResult)
  }

  /** The count of leading successes is the first failing position. */
  lemma {:induction false} LeadingSuccessesAt(services: seq<ServiceEntry>, p: seq<nat>, initResult: ServiceType -> Outcome, m: nat)
    requires forall q :: 0 <= q < |p| ==> p[q] < |services|
    requires m < |p| && initResult(services[p[m]].serviceType).Fail?
    requires forall q :: 0 <= q < m ==> initResult(services[p[q]].serviceType) == Done
    ensures LeadingSuccesses(services, p, initResult) == m
    decreases m
  {
    if m > 0 {
      LeadingSuccessesAt(services, p[1..], initResult, m - 1);
    }
  }

  function InitCalls(services: seq<ServiceEntry>, p: seq<nat>): (calls: seq<ServiceCall>)
    requires forall q :: 0 <= q < |p| ==> p[q] < |services|
  {
    seq(|p|, q requires 0 <= q < |p| => InitializeCall(services[p[q]].serviceType))
  }

  /** Shutdown calls for the slots of `p`, last slot first. */
  function ReverseShutdownCalls(services: seq<ServiceEntry>, p: seq<nat>): (calls: seq<ServiceCall>)
    requires forall q :: 0 <= q < |p| ==> p[q] < |services|
  {
    seq(|p|, q requires 0 <= q < |p| => ShutdownCall(services[p[|p| - 1 - q]].serviceType))
  }

  /** The list with the services at the slots of `p` flagged initialized. */
  function Initialized(services: seq<ServiceEntry>, p: seq<nat>): (r: seq<ServiceEntry>)
    ensures SameServices(r, services)
  {
    seq(|services|, i requires 0 <= i < |services| => if i in p then services[i].(initialized := true) else services[i])
  }

  /** The list with the selected services at the slots of `indices` flagged not initialized. */
  function Deinitialized(services: seq<ServiceEntry>, indices: seq<nat>, selected: seq<bool>): (r: seq<ServiceEntry>)
    requires |selected| == |services|
    ensures SameServices(r, services)
  {
    seq(|services|, i requires 0 <= i < |services| => if selected[i] && i in indices then services[i].(initialized := false) else services[i])
  }

  function AllSelected(n: nat): (m: seq<bool>)
    ensures |m| == n && forall i :: 0 <= i < n ==> m[i]
  {
    seq(n, _ => true)
  }

  /**
   * The shutdown calls of a walk over `indices` from the back: a selected,
   * initialized service is shut down, anything else is skipped.
   */
  function ShutdownCalls(services: seq<ServiceEntry>, indices: seq<nat>, selected: seq<bool>): (calls: seq<ServiceCall>)
    requires |selected| == |services|
    requires forall k :: 0 <= k < |indices| ==> indices[k] < |services|
  {
    if indices == [] then []
    else
      var last := indices[|indices| - 1];
      (if selected[last] && services[last].initialized then [ShutdownCall(services[last].serviceType)] else [])
      + ShutdownCalls(services, indices[..|indices| - 1], selected)
  }

  /** When every visited service is selected and running, the walk shuts each down, last first. */
  lemma {:induction false} ShutdownCallsAllRunning(services: seq<ServiceEntry>, indices: seq<nat>, selected: seq<bool>)
    requires |selected| == |services|
    requires forall k :: 0 <= k < |indices| ==> indices[k] < |services| && selected[indices[k]] && services[indices[k]].initialized
    ensures ShutdownCalls(services, indices, selected) == ReverseShutdownCalls(services, indices)
    decreases |indices|
  {
    if indices != [] {
      var prefix := indices[..|indices| - 1];
      ShutdownCallsAllRunning(services, prefix, selected);
      var l := ShutdownCalls(services, indices, selected);
      var r := ReverseShutdownCalls(services, indices);
      assert l == [ShutdownCall(services[indices[|indices| - 1]].serviceType)] + ReverseShutdownCalls(services, prefix);
      forall q | 0 <= q < |r| ensures l[q] == r[q] {
        if q > 0 {
          assert l[q] == ReverseShutdownCalls(services, prefix)[q - 1];
        }
      }
    }
  }

  /** What starting the services along an order reports: its result, the calls it made and the new list. */
  datatype PassReport = PassReport(result: Outcome, calls: seq<ServiceCall>, services: seq<ServiceEntry>)

  /**
   * Starting along `order`: each service not running yet is started in turn. On
   * the first failure, every service this pass started is shut down again, last
   * started first, and the failure is returned; services that were running
   * before the pass stay running.
   */
  function StartPass(services: seq<ServiceEntry>, order: seq<nat>, initResult: ServiceType -> Outcome): (r: PassReport)
    requires OrderWellFormed(order, |services|)
    ensures SameServices(r.services, services)
    ensures r.result.Fail? ==> r.services == services
  {
    var p := Pending(services, order);
    var s := LeadingSuccesses(services, p, initResult);
    if s == |p| then PassReport(Done, InitCalls(services, p), Initialized(services, p))
    else PassReport(initResult(services[p[s]].serviceType),
                    InitCalls(services, p[..s + 1]) + ReverseShutdownCalls(services, p[..s]), services)
  }

  /** What one initialisation pass reports: its result, the calls it made, the new list and the start order. */
  datatype InitReport = InitReport(result: Outcome, calls: seq<ServiceCall>, services: seq<ServiceEntry>, order: seq<nat>)

  /** Initialisation: build the start order, then start along it; a failed build starts nothing. */
  function InitEffect(services: seq<ServiceEntry>, index: map<ServiceType, nat>, initResult: ServiceType -> Outcome): (r: InitReport)
    requires IndexInRange(index, |services|)
    ensures SameServices(r.services, services)
    ensures OrderWellFormed(r.order, |services|)
    ensures r.result.Fail? ==> r.services == services
  {
    BuildOrderFailures(services, index);
    var built := BuildOrder(services, index);
    if built.0.Fail? then InitReport(built.0, [], services, built.1)
    else
      var pass := StartPass(services, built.1, initResult);
      InitReport(pass.result, pass.calls, pass.services, built.1)
  }

  /** A successful pass leaves every registered service running. */
  lemma InitEffectStartsAll(services: seq<ServiceEntry>, index: map<ServiceType, nat>, initResult: ServiceType -> Outcome)
    requires IndexInRange(index, |services|)
    requires InitEffect(services, index, initResult).result == Done
    ensures var r := InitEffect(services, index, initResult);
      forall i :: 0 <= i < |services| ==> r.services[i] == services[i].(initialized := true)
  {
    var order := BuildOrder(services, index).1;
    BuildOrderSchedulesAll(services, index);
    var p := Pending(services, order);
    PendingMembers(services, order);
    assert InitEffect(services, index, initResult).services == StartPass(services, order, initResult).services == Initialized(services, p);
    forall i | 0 <= i < |services| ensures Initialized(services, p)[i] == services[i].(initialized := true) {
      assert i in order;
    }
  }

  /**
   * Starting everything from a stopped list and then shutting it down over the
   * start order undoes the pass: the calls mirror each other and the list is
   * back as it was.
   */
  lemma InitThenShutdown(services: seq<ServiceEntry>, index: map<ServiceType, nat>, initResult: ServiceType -> Outcome)
    requires IndexInRange(index, |services|)
    requires forall i :: 0 <= i < |services| ==> !services[i].initialized
    requires InitEffect(services, index, initResult).result == Done
    ensures var r := InitEffect(services, index, initResult);
      var stopped := AllSelected(|services|);
      Deinitialized(r.services, r.order, stopped) == services
      && ShutdownCalls(r.services, r.order, stopped) == ReverseShutdownCalls(services, r.order)
      && r.calls == InitCalls(services, r.order)
  {
    var order := BuildOrder(services, index).1;
    BuildOrderSchedulesAll(services, index);
    PendingAllStopped(services, order);
    assert StartPass(services, order, initResult) == PassReport(Done, InitCalls(services, order), Initialized(services, order));
    StartThenStop(services, order);
  }

  lemma StartThenStop(services: seq<ServiceEntry>, order: seq<nat>)
    requires forall k :: 0 <= k < |order| ==> order[k] < |services| && !services[order[k]].initialized
    ensures var started := Initialized(services, order);
      var stopped := AllSelected(|services|);
      Deinitialized(started, order, stopped) == services
      && ShutdownCalls(started, order, stopped) == ReverseShutdownCalls(services, order)
  {
    var started := Initialized(services, order);
    var stopped := AllSelected(|services|);
    ShutdownCallsAllRunning(started, order, stopped);
    SameTypesSameShutdownCalls(started, services, order);
    RollbackRestores(services, order, stopped);
  }

  lemma SameTypesSameShutdownCalls(a: seq<ServiceEntry>, b: seq<ServiceEntry>, p: seq<nat>)
    requires SameServices(a, b)
    requires forall q :: 0 <= q < |p| ==> p[q] < |a|
    ensures ReverseShutdownCalls(a, p) == ReverseShutdownCalls(b, p)
    ensures InitCalls(a, p) == InitCalls(b, p)
  {
  }

  /** Shutting down, over the same slots, the services a pass started from stopped gives back the list as it was. */
  lemma RollbackRestores(services: seq<ServiceEntry>, p: seq<nat>, selected: seq<bool>)
    requires |selected| == |services|
    requires forall q :: 0 <= q < |p| ==> p[q] < |services| && !services[p[q]].initialized && selected[p[q]]
    ensures Deinitialized(Initialized(services, p), p, selected) == services
  {
    var r := Deinitialized(Initialized(services, p), p, selected);
    forall i | 0 <= i < |services| ensures r[i] == services[i] {
      if i in p {
        var q :| 0 <= q < |p| && p[q] == i;
      }
    }
  }

  lemma {:induction false} PendingAllStopped(services: seq<ServiceEntry>, order: seq<nat>)
    requires forall k :: 0 <= k < |order| ==> order[k] < |services| && !services[order[k]].initialized
    ensures Pending(services, order) == order
    decreases |order|
  {
    if order != [] {
      PendingAllStopped(services, order[..|order| - 1]);
    }
  }

  /** Moving lifecycle flags does not disturb the type index. */
  lemma SameServicesKeepIndex(a: seq<ServiceEntry>, b: seq<ServiceEntry>, index: map<ServiceType, nat>)
    requires SameServices(a, b) && IndexMatches(b, index)
    ensures IndexMatches(a, index)
  {
  }

  lemma DeinitializedStep(services: seq<ServiceEntry>, indices: seq<nat>, selected: seq<bool>, k: nat)
    requires |selected| == |services| && OrderWellFormed(indices, |services|)
    requires 0 < k <= |indices|
    ensures var idx := indices[k - 1];
      var d := Deinitialized(services, indices[k..], selected);
      Deinitialized(services, indices[k - 1..], selected)
        == if selected[idx] && services[idx].initialized then d[idx := services[idx].(initialized := false)] else d
  {
    var idx := indices[k - 1];
    assert forall i :: i in indices[k - 1..] <==> i == idx || i in indices[k..];
    assert idx !in indices[k..];
  }

  lemma ShutdownCallsStep(services: seq<ServiceEntry>, indices: seq<nat>, selected: seq<bool>, k: nat)
    requires |selected| == |services| && OrderWellFormed(indices, |services|)
    requires 0 < k <= |indices|
    ensures var idx := indices[k - 1];
      ShutdownCalls(services, indices[..k], selected)
        == (if selected[idx] && services[idx].initialized then [ShutdownCall(services[idx].serviceType)] else [])
           + ShutdownCalls(services, indices[..k - 1], selected)
  {
    assert indices[..k][..k - 1] == indices[..k - 1];
  }

  lemma PendingStep(services: seq<ServiceEntry>, order: seq<nat>, k: nat)
    requires OrderWellFormed(order, |services|) && k < |order|
    ensures Pending(services, order[..k + 1])
      == Pending(services, order[..k]) + (if services[order[k]].initialized then [] else [order[k]])
  {
    assert order[..k + 1][..k] == order[..k];
  }

  /** The pending slots of the whole order continue those of a prefix with the next stopped slot. */
  lemma PendingContinues(services: seq<ServiceEntry>, order: seq<nat>, k: nat)
    requires OrderWellFormed(order, |services|) && k < |order| && !services[order[k]].initialized
    ensures var head := Pending(services, order[..k]);
      var p := Pending(services, order);
      |head| < |p| && p[..|head| + 1] == head + [order[k]]
  {
    assert order == order[..k] + order[k..];
    PendingAppend(services, order[..k], order[k..]);
    assert order[k..] == [order[k]] + order[k + 1..];
    PendingAppend(services, [order[k]], order[k + 1..]);
    assert Pending(services, [order[k]]) == [order[k]] by {
      assert [order[k]][..0] == [];
    }
  }

  lemma InitializedSnoc(services: seq<ServiceEntry>, p: seq<nat>, idx: nat)
    requires idx < |services| && idx !in p
    ensures Initialized(services, p + [idx]) == Initialized(services, p)[idx := services[idx].(initialized := true)]
  {
    assert forall i :: i in p + [idx] <==> i == idx || i in p;
  }

  lemma StartPassAllStarted(services: seq<ServiceEntry>, order: seq<nat>, initResult: ServiceType -> Outcome, started: seq<nat>)
    requires OrderWellFormed(order, |services|)
    requires started == Pending(services, order)
    requires forall q :: 0 <= q < |started| ==> initResult(services[started[q]].serviceType) == Done
    ensures StartPass(services, order, initResult) == PassReport(Done, InitCalls(services, started), Initialized(services, started))
  {
  }

  lemma StartPassFailed(services: seq<ServiceEntry>, order: seq<nat>, initResult: ServiceType -> Outcome, started: seq<nat>, idx: nat)
    requires OrderWellFormed(order, |services|)
    requires idx < |services| && (forall q :: 0 <= q < |started| ==> started[q] < |services|)
    requires var p := Pending(services, order);
      |started| < |p| && LeadingSuccesses(services, p, initResult) == |started| && p[|started|] == idx && p[..|started|] == started
    ensures StartPass(services, order, initResult)
      == PassReport(initResult(services[idx].serviceType), InitCalls(services, started + [idx]) + ReverseShutdownCalls(services, started), services)
  {
    var p := Pending(services, order);
    assert p[..|started| + 1] == started + [idx];
  }

  /** A walk from the back after visiting `indices[k..]`: the flags of those slots cleared, their calls made. */
  ghost predicate WalkedDown(services: seq<ServiceEntry>, indices: seq<nat>, selected: seq<bool>, k: nat,
                             next: seq<ServiceEntry>, calls: seq<ServiceCall>)
    requires OrderWellFormed(indices, |services|) && |selected| == |services|
  {
    k <= |indices|
    && next == Deinitialized(services, indices[k..], selected)
    && ShutdownCalls(services, indices, selected) == calls + ShutdownCalls(services, indices[..k], selected)
  }

  /** The slot the walk visits next still holds its entry. */
  lemma WalkUntouched(services: seq<ServiceEntry>, indices: seq<nat>, selected: seq<bool>, k: nat,
                      next: seq<ServiceEntry>, calls: seq<ServiceCall>)
    requires OrderWellFormed(indices, |services|) && |selected| == |services| && 0 < k
    requires WalkedDown(services, indices, selected, k, next, calls)
    ensures next[indices[k - 1]] == services[indices[k - 1]]
  {
    assert indices[k - 1] !in indices[k..];
  }

  /** Visiting a slot whose service is selected and running stops it and records the call. */
  lemma WalkStop(services: seq<ServiceEntry>, indices: seq<nat>, selected: seq<bool>, k: nat,
                 next: seq<ServiceEntry>, calls: seq<ServiceCall>)
    requires OrderWellFormed(indices, |services|) && |selected| == |services| && 0 < k
    requires WalkedDown(services, indices, selected, k, next, calls)
    requires selected[indices[k - 1]] && services[indices[k - 1]].initialized
    ensures var idx := indices[k - 1];
      WalkedDown(services, indices, selected, k - 1, next[idx := services[idx].(initialized := false)],
                 calls + [ShutdownCall(services[idx].serviceType)])
  {
    var idx := indices[k - 1];
    ShutdownCallsStep(services, indices, selected, k);
    DeinitializedStep(services, indices, selected, k);
    var c := [ShutdownCall(services[idx].serviceType)];
    var rest := ShutdownCalls(services, indices[..k - 1], selected);
    assert calls + (c + rest) == (calls + c) + rest;
  }

  /** Visiting any other slot changes nothing. */
  lemma WalkSkip(services: seq<ServiceEntry>, indices: seq<nat>, selected: seq<bool>, k: nat,
                 next: seq<ServiceEntry>, calls: seq<ServiceCall>)
    requires OrderWellFormed(indices, |services|) && |selected| == |services| && 0 < k
    requires WalkedDown(services, indices, selected, k, next, calls)
    requires !(selected[indices[k - 1]] && services[indices[k - 1]].initialized)
    ensures WalkedDown(services, indices, selected, k - 1, next, calls)
  {
    ShutdownCallsStep(services, indices, selected, k);
    DeinitializedStep(services, indices, selected, k);
    assert next == Deinitialized(services, indices[k - 1..], selected);
    var rest := ShutdownCalls(services, indices[..k - 1], selected);
    assert ShutdownCalls(services, indices[..k], selected) == [] + rest == rest;
    assert ShutdownCalls(services, indices, selected) == calls + rest;
  }

  /** Walks `indices` from the back, shutting down each selected service that is running. */
  method ShutdownWalk(services: seq<ServiceEntry>, indices: seq<nat>, selected: seq<bool>) returns (calls: seq<ServiceCall>, next: seq<ServiceEntry>)
    requires OrderWellFormed(indices, |services|) && |selected| == |services|
    ensures next == Deinitialized(services, indices, selected)
    ensures calls == ShutdownCalls(services, indices, selected)
  {
    next := services;
    calls := [];
    var k := |indices|;
    assert indices[..k] == indices;
    assert Deinitialized(services, indices[k..], selected) == services;
    while k > 0
      invariant WalkedDown(services, indices, selected, k, next, calls)
    {
      var idx := indices[k - 1];
      WalkUntouched(services, indices, selected, k, next, calls);
      if selected[idx] && next[idx].initialized {
        WalkStop(services, indices, selected, k, next, calls);
        calls := calls + [ShutdownCall(next[idx].serviceType)];
        next := next[idx := next[idx].(initialized := false)];
      } else {
        WalkSkip(services, indices, selected, k, next, calls);
      }
      k := k - 1;
    }
    assert indices[..0] == [];
  }


  /** The state of a pass after the first `k` slots of `order`: `started` came up, in turn, and nothing failed. */
  ghost predicate StartedThrough(services: seq<ServiceEntry>, order: seq<nat>, initResult: ServiceType -> Outcome,
                                 k: nat, started: seq<nat>, next: seq<ServiceEntry>, calls: seq<ServiceCall>)
    requires OrderWellFormed(order, |services|)
  {
    k <= |order| && started == Pending(services, order[..k])
    && (forall q :: 0 <= q < |started| ==> initResult(services[started[q]].serviceType) == Done)
    && next == Initialized(services, started)
    && calls == InitCalls(services, started)
  }

  /** A slot whose service is already running leaves the pass as it was. */
  lemma StartSkip(services: seq<ServiceEntry>, order: seq<nat>, initResult: ServiceType -> Outcome,
                  k: nat, started: seq<nat>, next: seq<ServiceEntry>, calls: seq<ServiceCall>)
    requires OrderWellFormed(order, |services|) && k < |order| && services[order[k]].initialized
    requires StartedThrough(services, order, initResult, k, started, next, calls)
    ensures StartedThrough(services, order, initResult, k + 1, started, next, calls)
  {
    PendingStep(services, order, k);
  }

  /** A slot whose stopped service starts joins `started`, flagged running, with its call recorded. */
  lemma StartOne(services: seq<ServiceEntry>, order: seq<nat>, initResult: ServiceType -> Outcome,
                 k: nat, started: seq<nat>, next: seq<ServiceEntry>, calls: seq<ServiceCall>)
    requires OrderWellFormed(order, |services|) && k < |order|
    requires !services[order[k]].initialized && initResult(services[order[k]].serviceType) == Done
    requires StartedThrough(services, order, initResult, k, started, next, calls)
    ensures var idx := order[k];
      StartedThrough(services, order, initResult, k + 1, started + [idx],
                     next[idx := next[idx].(initialized := true)], calls + [InitializeCall(services[idx].serviceType)])
  {
    var idx := order[k];
    PendingStep(services, order, k);
    PendingMembers(services, order[..k]);
    assert idx !in order[..k];
    InitializedSnoc(services, started, idx);
  }

  /** The slot a pass visits next holds its entry unchanged. */
  lemma StartUntouched(services: seq<ServiceEntry>, order: seq<nat>, initResult: ServiceType -> Outcome,
                       k: nat, started: seq<nat>, next: seq<ServiceEntry>, calls: seq<ServiceCall>)
    requires OrderWellFormed(order, |services|) && k < |order|
    requires StartedThrough(services, order, initResult, k, started, next, calls)
    ensures next[order[k]] == services[order[k]]
  {
    PendingMembers(services, order[..k]);
    assert started == Pending(services, order[..k]);
    assert order[k] !in order[..k];
    assert forall q :: 0 <= q < |started| ==> started[q] in order[..k];
    assert Initialized(services, started)[order[k]] == services[order[k]];
  }

  /**
   * The end of a pass whose start of `idx` failed after `started` came up: the
   * calls so far plus the shutdown, last first, of everything the pass started.
   */
  method AbandonPass(services: seq<ServiceEntry>, order: seq<nat>, initResult: ServiceType -> Outcome, started: seq<nat>, idx: nat)
    returns (calls: seq<ServiceCall>, next: seq<ServiceEntry>)
    requires OrderWellFormed(order, |services|) && OrderWellFormed(Pending(services, order), |services|)
    requires idx < |services| && !services[idx].initialized && initResult(services[idx].serviceType).Fail?
    requires forall q :: 0 <= q < |started| ==> started[q] < |services| && initResult(services[started[q]].serviceType) == Done
    requires var p := Pending(services, order); |started| < |p| && p[..|started| + 1] == started + [idx]
    ensures PassReport(initResult(services[idx].serviceType), calls, next) == StartPass(services, order, initResult)
  {
    FailedPass(services, order, started, idx, initResult);
    StartPassFailed(services, order, initResult, started, idx);
    var rollback;
    rollback, next := ShutdownWalk(Initialized(services, started), started, AllSelected(|services|));
    calls := InitCalls(services, started + [idx]) + rollback;
  }

  /** Starts, along `order`, each service not running yet; rolls the pass back on the first failure. */
  method StartInOrder(services: seq<ServiceEntry>, order: seq<nat>, initResult: ServiceType -> Outcome)
    returns (r: Outcome, calls: seq<ServiceCall>, next: seq<ServiceEntry>)
    requires OrderWellFormed(order, |services|)
    ensures PassReport(r, calls, next) == StartPass(services, order, initResult)
  {
    PendingDistinct(services, order);
    next := services;
    var initializedOrder: seq<nat> := [];
    calls := [];
    var k := 0;
    while k < |order|
      invariant StartedThrough(services, order, initResult, k, initializedOrder, next, calls)
    {
      var idx := order[k];
      StartUntouched(services, order, initResult, k, initializedOrder, next, calls);
      if !next[idx].initialized {
        var res := initResult(next[idx].serviceType);
        if res.Fail? {
          PendingContinues(services, order, k);
          calls, next := AbandonPass(services, order, initResult, initializedOrder, idx);
          return res, calls, next;
        }
        StartOne(services, order, initResult, k, initializedOrder, next, calls);
        calls := calls + [InitializeCall(next[idx].serviceType)];
        next := next[idx := next[idx].(initialized := true)];
        initializedOrder := initializedOrder + [idx];
      } else {
        StartSkip(services, order, initResult, k, initializedOrder, next, calls);
      }
      k := k + 1;
    }
    assert order[..k] == order;
    StartPassAllStarted(services, order, initResult, initializedOrder);
    r := Done;
  }

  /** The selection loop behind the start order, over the entries and the type index. */
  method ComputeServiceOrder(services: seq<ServiceEntry>, index: map<ServiceType, nat>) returns (r: Outcome, order: seq<nat>)
    requires IndexInRange(index, |services|)
    ensures (r, order) == BuildOrder(services, index)
  {
    order := [];
    if |services| == 0 {
      return Done, order;
    }
    var n := |services|;
    var resolved := seq(n, _ => false);
    assert resolved == Marks([], n);
    var resolveCount := 0;
    while resolveCount < n
      invariant resolveCount <= n
      invariant resolved == Marks(order, n)
      invariant OrderFrom(services, index, order, n - resolveCount) == BuildOrder(services, index)
    {
      var next := SelectNext(services, index, resolved);
      match next
      case Err(e) => {
        return Fail(e), order;
      }
      case Ok(None) => {
        return Fail(InternalError), order;
      }
      case Ok(Some(b)) => {
        MarksSnoc(order, b, n);
        resolved := resolved[b := true];
        order := order + [b];
      }
      resolveCount := resolveCount + 1;
    }
    return Done, order;
  }

  // ---------------------------------------------------------------------
  // Removal: keeping the unmarked entries and rebuilding the type index
  // ---------------------------------------------------------------------

  /** No two entries share a type. */
  predicate TypesDistinct(services: seq<ServiceEntry>) {
    forall i, j :: 0 <= i < j < |services| ==> services[i].serviceType != services[j].serviceType
  }

  /** A matching type index leaves room for one entry per type only. */
  lemma IndexMatchesDistinct(services: seq<ServiceEntry>, index: map<ServiceType, nat>)
    requires IndexMatches(services, index)
    ensures TypesDistinct(services)
  {
  }

  lemma SurvivorsStep(services: seq<ServiceEntry>, mask: seq<bool>, i: nat)
    requires i < |mask| <= |services|
    ensures Survivors(services, mask[..i + 1])
      == Survivors(services, mask[..i]) + (if mask[i] then [] else [services[i]])
  {
    assert mask[..i + 1][..i] == mask[..i];
  }

  /**
   * The survivors of a removal keep distinct types; the types among them are
   * exactly those of the unmarked entries.
   */
  lemma SurvivorsExclude(services: seq<ServiceEntry>, mask: seq<bool>)
    requires |mask| == |services| && TypesDistinct(services)
    ensures TypesDistinct(Survivors(services, mask))
    ensures forall i, q :: 0 <= i < |mask| && mask[i] && 0 <= q < |Survivors(services, mask)| ==>
      Survivors(services, mask)[q].serviceType != services[i].serviceType
  {
    var slots := KeptSlots(mask);
    var kept := Survivors(services, mask);
    forall q, q' | 0 <= q < q' < |kept| ensures kept[q].serviceType != kept[q'].serviceType {
      assert slots[q] < slots[q'];
    }
    forall i, q | 0 <= i < |mask| && mask[i] && 0 <= q < |kept| ensures kept[q].serviceType != services[i].serviceType {
      assert !mask[slots[q]];
    }
  }

  /** Moves the unmarked entries, in order, into a new list. */
  method KeepUnmarked(services: seq<ServiceEntry>, mask: seq<bool>) returns (remaining: seq<ServiceEntry>)
    requires |mask| == |services|
    ensures remaining == Survivors(services, mask)
  {
    remaining := [];
    var i := 0;
    while i < |mask|
      invariant i <= |mask|
      invariant remaining == Survivors(services, mask[..i])
    {
      SurvivorsStep(services, mask, i);
      if !mask[i] {
        remaining := remaining + [services[i]];
      }
      i := i + 1;
    }
    assert mask[..i] == mask;
  }

  /** The type index of a list: each type at the last slot that holds it. */
  function TypeIndex(services: seq<ServiceEntry>): (index: map<ServiceType, nat>)
    ensures forall t :: t in index ==> index[t] < |services| && services[index[t]].serviceType == t
    ensures forall j :: 0 <= j < |services| ==> services[j].serviceType in index
    decreases |services|
  {
    if services == [] then map[]
    else
      var last := |services| - 1;
      var prefix := services[..last];
      assert forall j :: 0 <= j < last ==> prefix[j] == services[j];
      TypeIndex(prefix)[services[last].serviceType := last]
  }

  /** When a type occurs more than once, the rebuilt index keeps its last slot. */
  lemma {:induction false} TypeIndexPicksLast(services: seq<ServiceEntry>, j: nat)
    requires j < |services|
    ensures j <= TypeIndex(services)[services[j].serviceType]
    decreases |services|
  {
    var last := |services| - 1;
    var prefix := services[..last];
    var t := services[j].serviceType;
    var index := TypeIndex(prefix)[services[last].serviceType := last];
    assert TypeIndex(services) == index;
    if services[last].serviceType == t {
      assert index[t] == last;
    } else {
      assert prefix[j] == services[j];
      TypeIndexPicksLast(prefix, j);
      assert index[t] == TypeIndex(prefix)[t];
    }
  }

  /** With distinct types the rebuilt index matches the list, and it is the only index that does. */
  lemma TypeIndexMatches(services: seq<ServiceEntry>)
    requires TypesDistinct(services)
    ensures IndexMatches(services, TypeIndex(services))
  {
  }

  lemma MatchingIndexIsTypeIndex(services: seq<ServiceEntry>, index: map<ServiceType, nat>)
    requires IndexMatches(services, index)
    ensures index == TypeIndex(services)
  {
    IndexMatchesDistinct(services, index);
    TypeIndexMatches(services);
    var rebuilt := TypeIndex(services);
    assert forall t :: t in index <==> t in rebuilt by {
      forall t | t in rebuilt ensures t in index {
        assert services[rebuilt[t]].serviceType == t;
      }
    }
    forall t | t in index ensures index[t] == rebuilt[t] {
      assert services[index[t]].serviceType == t;
    }
  }

  /** Rebuilds the type index from the list, slot by slot. */
  method RebuildIndex(services: seq<ServiceEntry>) returns (index: map<ServiceType, nat>)
    ensures index == TypeIndex(services)
  {
    index := map[];
    var i := 0;
    while i < |services|
      invariant i <= |services|
      invariant index == TypeIndex(services[..i])
    {
      assert services[..i + 1][..i] == services[..i];
      index := index[services[i].serviceType := i];
      i := i + 1;
    }
    assert services[..i] == services;
  }

  // ---------------------------------------------------------------------
  // The registry as a value: registration, removal and defaults
  // ---------------------------------------------------------------------

  /** The registry's state: the entries, the type index and the last start order. */
  datatype HostState = HostState(services: seq<ServiceEntry>, index: map<ServiceType, nat>, order: seq<nat>)

  predicate StateValid(h: HostState) {
    IndexMatches(h.services, h.index) && OrderWellFormed(h.order, |h.services|)
  }

  /** What a registration or removal reports: its result, the calls it made and the new state. */
  datatype HostReport = HostReport(result: Outcome, calls: seq<ServiceCall>, state: HostState)

  /**
   * Registration: a missing instance is refused, a type already registered is
   * accepted as it is, and otherwise the entry is appended, stopped. On a
   * running host the services are then initialised; if that fails the new
   * entry is dropped again, as is its index entry, and the order rebuilt.
   */
  function RegisterEffect(h: HostState, service: Option<ServiceEntry>, hostReady: bool, initResult: ServiceType -> Outcome): (r: HostReport)
    requires StateValid(h)
    ensures StateValid(r.state)
    ensures r.state.index.Keys
      == h.index.Keys + (if r.result.Done? && service.Some? then {service.value.serviceType} else {})
    ensures |h.services| <= |r.state.services|
      && forall i :: 0 <= i < |h.services| ==> r.state.services[i].serviceType == h.services[i].serviceType
    ensures r.result.Fail? ==> r.state.services == h.services && r.state.index == h.index
    ensures service.None? ==> r.result == Fail(InvalidArgument)
    ensures service.Some? && !hostReady ==> r.result == Done
  {
    if service.None? then HostReport(Fail(InvalidArgument), [], h)
    else if service.value.serviceType in h.index then HostReport(Done, [], h)
    else AddService(h, service.value, hostReady, initResult)
  }

  /** Registration of a type not yet registered: append it stopped and, on a running host, initialise. */
  function AddService(h: HostState, e: ServiceEntry, hostReady: bool, initResult: ServiceType -> Outcome): (r: HostReport)
    requires StateValid(h) && e.serviceType !in h.index
    ensures StateValid(r.state)
    ensures r.state.index.Keys == h.index.Keys + (if r.result.Done? then {e.serviceType} else {})
    ensures |h.services| <= |r.state.services|
      && forall i :: 0 <= i < |h.services| ==> r.state.services[i].serviceType == h.services[i].serviceType
    ensures r.result.Fail? ==> r.state.services == h.services && r.state.index == h.index
    ensures !hostReady ==> r.result == Done
  {
    var t := e.serviceType;
    var added := h.services + [e.(initialized := false)];
    var addedIndex := h.index[t := |h.services|];
    assert IndexMatches(added, addedIndex);
    if !hostReady then HostReport(Done, [], HostState(added, addedIndex, h.order))
    else
      var pass := InitEffect(added, addedIndex, initResult);
      SameServicesKeepIndex(pass.services, added, addedIndex);
      if pass.result.Done? then HostReport(Done, pass.calls, HostState(pass.services, addedIndex, pass.order))
      else
        BuildOrderFailures(h.services, h.index);
        HostReport(pass.result, pass.calls, HostState(h.services, h.index, BuildOrder(h.services, h.index).1))
  }

  /**
   * The end of a removal once `kept` is the new list: the index and the start
   * order are rebuilt from scratch and, on a running host whose order builds,
   * the services are initialised again.
   */
  function Restart(kept: seq<ServiceEntry>, stopCalls: seq<ServiceCall>, hostReady: bool, initResult: ServiceType -> Outcome): (r: HostReport)
    requires TypesDistinct(kept)
    ensures StateValid(r.state) && r.state.index == TypeIndex(kept)
  {
    var index := TypeIndex(kept);
    TypeIndexMatches(kept);
    BuildOrderFailures(kept, index);
    var built := BuildOrder(kept, index);
    if built.0.Fail? || !hostReady then HostReport(built.0, stopCalls, HostState(kept, index, built.1))
    else
      var e := InitEffect(kept, index, initResult);
      SameServicesKeepIndex(e.services, kept, index);
      HostReport(e.result, stopCalls + e.calls, HostState(e.services, index, e.order))
  }

  /**
   * Removal of type `t` with the services marked in `mask`: on a running host
   * the marked services are shut down in reverse start order; the unmarked
   * entries are kept in order, then the registry restarts over them.
   */
  function UnregisterEffect(h: HostState, t: ServiceType, mask: seq<bool>, hostReady: bool, initResult: ServiceType -> Outcome): (r: HostReport)
    requires StateValid(h) && |mask| == |h.services|
    ensures StateValid(r.state)
    ensures t !in h.index ==> r == HostReport(Fail(NotFound), [], h)
    ensures t in h.index ==> forall u :: u in r.state.index <==>
      exists i :: 0 <= i < |mask| && !mask[i] && h.services[i].serviceType == u
  {
    if t !in h.index then HostReport(Fail(NotFound), [], h)
    else
      var stopped := if hostReady then Deinitialized(h.services, h.order, mask) else h.services;
      var stopCalls := if hostReady then ShutdownCalls(h.services, h.order, mask) else [];
      IndexMatchesDistinct(h.services, h.index);
      SurvivorsExclude(stopped, mask);
      UnregisterKeys(h.services, stopped, mask, TypeIndex(Survivors(stopped, mask)));
      Restart(Survivors(stopped, mask), stopCalls, hostReady, initResult)
  }

  /** An unmarked entry's type is a key of the rebuilt index. */
  lemma KeptTypeIndexed(stopped: seq<ServiceEntry>, mask: seq<bool>, i: nat)
    requires |mask| == |stopped| && i < |mask| && !mask[i]
    ensures stopped[i].serviceType in TypeIndex(Survivors(stopped, mask))
  {
    var slots := KeptSlots(mask);
    assert i in slots;
    var q :| 0 <= q < |slots| && slots[q] == i;
    assert Survivors(stopped, mask)[q] == stopped[i];
  }

  /** Every key of the rebuilt index is the type of an unmarked entry. */
  lemma IndexedTypeKept(stopped: seq<ServiceEntry>, mask: seq<bool>, u: ServiceType)
    requires |mask| == |stopped| && u in TypeIndex(Survivors(stopped, mask))
    ensures exists i :: 0 <= i < |mask| && !mask[i] && stopped[i].serviceType == u
  {
    var slots := KeptSlots(mask);
    var q := TypeIndex(Survivors(stopped, mask))[u];
    assert Survivors(stopped, mask)[q] == stopped[slots[q]];
    assert !mask[slots[q]] && stopped[slots[q]].serviceType == u;
  }

  /** The keys of the rebuilt index are the types of the unmarked entries. */
  lemma UnregisterKeys(services: seq<ServiceEntry>, stopped: seq<ServiceEntry>, mask: seq<bool>, index: map<ServiceType, nat>)
    requires |mask| == |services| && SameServices(stopped, services)
    requires index == TypeIndex(Survivors(stopped, mask))
    ensures forall u :: u in index <==> exists i :: 0 <= i < |mask| && !mask[i] && services[i].serviceType == u
  {
    forall u | u in index ensures exists i :: 0 <= i < |mask| && !mask[i] && services[i].serviceType == u {
      IndexedTypeKept(stopped, mask, u);
      var i :| 0 <= i < |mask| && !mask[i] && stopped[i].serviceType == u;
      assert services[i].serviceType == u;
    }
    forall i | 0 <= i < |mask| && !mask[i] ensures services[i].serviceType in index {
      KeptTypeIndexed(stopped, mask, i);
    }
  }

  /** Registering the given services one after another, from the back. */
  function RegisterAll(h: HostState, defaults: seq<ServiceEntry>, hostReady: bool, initResult: ServiceType -> Outcome): (r: HostReport)
    requires StateValid(h)
    ensures StateValid(r.state)
    ensures h.index.Keys <= r.state.index.Keys
    ensures !hostReady ==> forall k :: 0 <= k < |defaults| ==> defaults[k].serviceType in r.state.index
    decreases |defaults|
  {
    if defaults == [] then HostReport(Done, [], h)
    else
      var prefix := defaults[..|defaults| - 1];
      var before := RegisterAll(h, prefix, hostReady, initResult);
      var last := RegisterEffect(before.state, Some(defaults[|defaults| - 1]), hostReady, initResult);
      TypesStayRegistered(before.state.index, last.state.index, defaults, prefix, hostReady);
      HostReport(last.result, before.calls + last.calls, last.state)
  }

  /** The types registered before a step, and the one the step registers, are all registered after it. */
  lemma TypesStayRegistered(before: map<ServiceType, nat>, after: map<ServiceType, nat>, all: seq<ServiceEntry>, prefix: seq<ServiceEntry>, hostReady: bool)
    requires all != [] && prefix == all[..|all| - 1] && before.Keys <= after.Keys
    requires !hostReady ==> all[|all| - 1].serviceType in after
    requires !hostReady ==> forall k :: 0 <= k < |prefix| ==> prefix[k].serviceType in before
    ensures !hostReady ==> forall k :: 0 <= k < |all| ==> all[k].serviceType in after
  {
    if !hostReady {
      forall k | 0 <= k < |all| ensures all[k].serviceType in after {
        if k < |all| - 1 {
          assert prefix[k] == all[k];
          assert all[k].serviceType in before.Keys;
        }
      }
    }
  }

  /** Registration on a stopped host, then removal of the same type when nothing depends on it, restores the entries and the index. */
  lemma RegisterThenUnregister(h: HostState, e: ServiceEntry, initResult: ServiceType -> Outcome)
    requires StateValid(h) && e.serviceType !in h.index
    ensures var reg := RegisterEffect(h, Some(e), false, initResult);
      var n := |h.services|;
      var mask := seq(n + 1, i => i == n);
      var un := UnregisterEffect(reg.state, e.serviceType, mask, false, initResult);
      un.state.services == h.services && un.state.index == h.index
  {
    var n := |h.services|;
    var reg := RegisterEffect(h, Some(e), false, initResult);
    var mask := seq(n + 1, i => i == n);
    assert KeptSlots(mask) == seq(n, i => i) by {
      assert mask[..n] == seq(n, _ => false);
      AllKept(n);
    }
    var kept := Survivors(reg.state.services, mask);
    assert kept == h.services;
    MatchingIndexIsTypeIndex(h.services, h.index);
  }

  lemma {:induction false} AllKept(n: nat)
    ensures KeptSlots(seq(n, _ => false)) == seq(n, i => i)
  {
    if n > 0 {
      assert seq(n, _ => false)[..n - 1] == seq(n - 1, _ => false);
      AllKept(n - 1);
    }
  }

  /** Builds the start order, then starts along it: a value-level initialisation pass. */
  method InitializePass(services: seq<ServiceEntry>, index: map<ServiceType, nat>, initResult: ServiceType -> Outcome)
    returns (r: Outcome, calls: seq<ServiceCall>, next: seq<ServiceEntry>, order: seq<nat>)
    requires IndexInRange(index, |services|)
    ensures InitReport(r, calls, next, order) == InitEffect(services, index, initResult)
  {
    BuildOrderFailures(services, index);
    r, order := ComputeServiceOrder(services, index);
    if r.Fail? {
      return r, [], services, order;
    }
    r, calls, next := StartInOrder(services, order, initResult);
  }

  method Register(h: HostState, service: Option<ServiceEntry>, hostReady: bool, initResult: ServiceType -> Outcome)
    returns (r: HostReport)
    requires StateValid(h)
    ensures r == RegisterEffect(h, service, hostReady, initResult)
  {
    if service.None? {
      return HostReport(Fail(InvalidArgument), [], h);
    }
    var t := service.value.serviceType;
    if t in h.index {
      return HostReport(Done, [], h);
    }
    var added := h.services + [service.value.(initialized := false)];
    var addedIndex := h.index[t := |h.services|];
    if !hostReady {
      return HostReport(Done, [], HostState(added, addedIndex, h.order));
    }
    var o, calls, next, order := InitializePass(added, addedIndex, initResult);
    if o.Fail? {
      var restored := added[..|added| - 1];
      assert restored == h.services;
      assert addedIndex - {t} == h.index;
      BuildOrderFailures(restored, addedIndex - {t});
      var _, rebuilt := ComputeServiceOrder(restored, addedIndex - {t});
      return HostReport(o, calls, HostState(restored, addedIndex - {t}, rebuilt));
    }
    return HostReport(Done, calls, HostState(next, addedIndex, order));
  }

  method Unregister(h: HostState, t: ServiceType, hostReady: bool, initResult: ServiceType -> Outcome)
    returns (r: HostReport, ghost mask: seq<bool>, ghost chain: seq<nat>)
    requires StateValid(h)
    ensures |mask| == |h.services| && r == UnregisterEffect(h, t, mask, hostReady, initResult)
    ensures t in h.index ==>
      mask == Marks(chain, |h.services|) && DependencyChain(h.services, h.index[t], chain)
      && ClosedUnderDependents(h.services, mask)
  {
    mask, chain := seq(|h.services|, _ => false), [];
    if t !in h.index {
      return HostReport(Fail(NotFound), [], h), mask, chain;
    }
    var removed;
    removed, chain := DependentsOf(h.services, h.index[t]);
    mask := removed;
    var stopCalls, stopped := [], h.services;
    if hostReady {
      stopCalls, stopped := ShutdownWalk(h.services, h.order, removed);
    }
    var kept := KeepUnmarked(stopped, removed);
    IndexMatchesDistinct(h.services, h.index);
    SurvivorsExclude(stopped, removed);
    r := RestartOver(kept, stopCalls, hostReady, initResult);
  }

  method RestartOver(kept: seq<ServiceEntry>, stopCalls: seq<ServiceCall>, hostReady: bool, initResult: ServiceType -> Outcome)
    returns (r: HostReport)
    requires TypesDistinct(kept)
    ensures r == Restart(kept, stopCalls, hostReady, initResult)
  {
    var index := RebuildIndex(kept);
    TypeIndexMatches(kept);
    BuildOrderFailures(kept, index);
    var o, order := ComputeServiceOrder(kept, index);
    if o.Fail? || !hostReady {
      return HostReport(o, stopCalls, HostState(kept, index, order));
    }
    var o', calls, next, order' := InitializePass(kept, index, initResult);
    return HostReport(o', stopCalls + calls, HostState(next, index, order'));
  }

  /** Registers the given services one after another; each result is dropped. */
  method RegisterDefaults(h: HostState, defaults: seq<ServiceEntry>, hostReady: bool, initResult: ServiceType -> Outcome)
    returns (r: HostReport)
    requires StateValid(h)
    ensures (r.calls, r.state) == (RegisterAll(h, defaults, hostReady, initResult).calls, RegisterAll(h, defaults, hostReady, initResult).state)
  {
    r := HostReport(Done, [], h);
    var k := 0;
    while k < |defaults|
      invariant k <= |defaults|
      invariant (r.calls, r.state) == (RegisterAll(h, defaults[..k], hostReady, initResult).calls, RegisterAll(h, defaults[..k], hostReady, initResult).state)
    {
      assert defaults[..k + 1][..k] == defaults[..k];
      var step := Register(r.state, Some(defaults[k]), hostReady, initResult);
      r := HostReport(step.result, r.calls + step.calls, step.state);
      k := k + 1;
    }
    assert defaults[..k] == defaults;
  }

  // ---------------------------------------------------------------------
  // The registry object
  // ---------------------------------------------------------------------

  /**
   * The service registry shared by the gameplay host and the editor: the
   * entries in registration order, the type index, the start order and the
   * once-only flag for built-in services.
   */
  class ServiceRegistry {
    /** Registered services, in registration order. */
    var services: seq<ServiceEntry>
    /** Position of each registered type in `services`. */
    var indexByType: map<ServiceType, nat>
    /** The last start order built, as positions in `services`. */
    var serviceOrder: seq<nat>
    /** Whether the host's built-in services have been registered. */
    var defaultServicesRegistered: bool

    function State(): HostState
      reads this
    {
      HostState(services, indexByType, serviceOrder)
    }

    ghost predicate Valid()
      reads this
    {
      StateValid(State())
    }

    constructor()
      ensures Valid()
      ensures services == [] && indexByType == map[] && serviceOrder == [] && !defaultServicesRegistered
    {
      services := [];
      indexByType := map[];
      serviceOrder := [];
      defaultServicesRegistered := false;
    }

    /** Rebuilds the start order; a failed build leaves the order built so far. */
    method BuildServiceOrder() returns (r: Outcome)
      requires Valid()
      modifies this`serviceOrder
      ensures Valid()
      ensures (r, serviceOrder) == BuildOrder(services, indexByType)
    {
      BuildOrderFailures(services, indexByType);
      r, serviceOrder := ComputeServiceOrder(services, indexByType);
    }

    /**
     * Builds the start order and starts every service not yet running, in that
     * order; a failure shuts down, last first, what this pass started.
     */
    method InitializeServices(initResult: ServiceType -> Outcome) returns (r: Outcome, calls: seq<ServiceCall>)
      requires Valid()
      modifies this`services, this`serviceOrder
      ensures Valid()
      ensures InitReport(r, calls, services, serviceOrder) == InitEffect(old(services), indexByType, initResult)
    {
      var next, order;
      r, calls, next, order := InitializePass(services, indexByType, initResult);
      SameServicesKeepIndex(next, services, indexByType);
      services, serviceOrder := next, order;
    }

    /** Shuts down, in reverse start order, every service that is running. */
    method ShutdownServices() returns (calls: seq<ServiceCall>)
      requires Valid()
      modifies this`services
      ensures Valid()
      ensures services == Deinitialized(old(services), serviceOrder, AllSelected(|old(services)|))
      ensures calls == ShutdownCalls(old(services), serviceOrder, AllSelected(|old(services)|))
    {
      var next;
      calls, next := ShutdownWalk(services, serviceOrder, AllSelected(|services|));
      SameServicesKeepIndex(next, services, indexByType);
      services := next;
    }

    /**
     * The gameplay host's shutdown: nothing to do without services, and an
     * order is built first when none exists yet.
     */
    method ShutdownServicesBuildingOrder() returns (calls: seq<ServiceCall>)
      requires Valid()
      modifies this`services, this`serviceOrder
      ensures Valid()
      ensures old(services) == [] ==> services == old(services) && serviceOrder == old(serviceOrder) && calls == []
      ensures old(services) != [] ==>
        (serviceOrder == if old(serviceOrder) == [] then BuildOrder(old(services), indexByType).1 else old(serviceOrder))
        && services == Deinitialized(old(services), serviceOrder, AllSelected(|old(services)|))
        && calls == ShutdownCalls(old(services), serviceOrder, AllSelected(|old(services)|))
    {
      if services == [] {
        return [];
      }
      if serviceOrder == [] {
        var _ := BuildServiceOrder();
      }
      calls := ShutdownServices();
    }

    /** Registers a service; see RegisterEffect. */
    method RegisterService(service: Option<ServiceEntry>, hostReady: bool, initResult: ServiceType -> Outcome)
      returns (r: Outcome, calls: seq<ServiceCall>)
      requires Valid()
      modifies this`services, this`indexByType, this`serviceOrder
      ensures Valid()
      ensures HostReport(r, calls, State()) == RegisterEffect(old(State()), service, hostReady, initResult)
    {
      var report := Register(State(), service, hostReady, initResult);
      r, calls := report.result, report.calls;
      services, indexByType, serviceOrder := report.state.services, report.state.index, report.state.order;
    }

    /**
     * Unregisters a type together with every service that depends on it,
     * directly or through others; see UnregisterEffect.
     */
    method UnregisterService(t: ServiceType, hostReady: bool, initResult: ServiceType -> Outcome)
      returns (r: Outcome, calls: seq<ServiceCall>, ghost removed: seq<bool>, ghost chain: seq<nat>)
      requires Valid()
      modifies this`services, this`indexByType, this`serviceOrder
      ensures Valid()
      ensures |removed| == |old(services)|
      ensures HostReport(r, calls, State()) == UnregisterEffect(old(State()), t, removed, hostReady, initResult)
      ensures t in old(indexByType) ==>
        removed == Marks(chain, |old(services)|) && DependencyChain(old(services), old(indexByType)[t], chain)
        && ClosedUnderDependents(old(services), removed)
    {
      var report;
      report, removed, chain := Unregister(State(), t, hostReady, initResult);
      r, calls := report.result, report.calls;
      services, indexByType, serviceOrder := report.state.services, report.state.index, report.state.order;
    }

    /** Registers the built-in services once; later calls do nothing. */
    method EnsureDefaultServicesRegistered(defaults: seq<ServiceEntry>, hostReady: bool, initResult: ServiceType -> Outcome)
      returns (calls: seq<ServiceCall>)
      requires Valid()
      modifies this`services, this`indexByType, this`serviceOrder, this`defaultServicesRegistered
      ensures Valid() && defaultServicesRegistered
      ensures old(defaultServicesRegistered) ==> calls == [] && State() == old(State())
      ensures !old(defaultServicesRegistered) ==>
        calls == RegisterAll(old(State()), defaults, hostReady, initResult).calls
        && State() == RegisterAll(old(State()), defaults, hostReady, initResult).state
    {
      if defaultServicesRegistered {
        return [];
      }
      var report := RegisterDefaults(State(), defaults, hostReady, initResult);
      calls := report.calls;
      services, indexByType, serviceOrder := report.state.services, report.state.index, report.state.order;
      defaultServicesRegistered := true;
    }
  }

  /** Where a failed initialisation pass stopped: after the started prefix of the pending list. */
  lemma FailedPassPrefix(s0: seq<ServiceEntry>, order: seq<nat>, started: seq<nat>, idx: nat, initResult: ServiceType -> Outcome)
    requires OrderWellFormed(order, |s0|) && OrderWellFormed(Pending(s0, order), |s0|)
    requires idx < |s0| && !s0[idx].initialized && initResult(s0[idx].serviceType).Fail?
    requires forall q :: 0 <= q < |started| ==> started[q] < |s0| && initResult(s0[started[q]].serviceType) == Done
    requires var p := Pending(s0, order); |started| < |p| && p[..|started| + 1] == started + [idx]
    ensures var p := Pending(s0, order);
      LeadingSuccesses(s0, p, initResult) == |started| && p[|started|] == idx && p[..|started|] == started
    ensures OrderWellFormed(started, |s0|)
    ensures forall q :: 0 <= q < |started| ==> !s0[started[q]].initialized
  {
    var p := Pending(s0, order);
    var m := |started|;
    assert p[..m] == p[..m + 1][..m];
    assert p[m] == p[..m + 1][m];
    assert forall q :: 0 <= q < m ==> started[q] == p[q];
    LeadingSuccessesAt(s0, p, initResult, m);
  }

  /** The facts behind a failed initialisation pass, away from the loop. */
  lemma FailedPass(s0: seq<ServiceEntry>, order: seq<nat>, started: seq<nat>, idx: nat, initResult: ServiceType -> Outcome)
    requires OrderWellFormed(order, |s0|) && OrderWellFormed(Pending(s0, order), |s0|)
    requires idx < |s0| && !s0[idx].initialized && initResult(s0[idx].serviceType).Fail?
    requires forall q :: 0 <= q < |started| ==> started[q] < |s0| && initResult(s0[started[q]].serviceType) == Done
    requires var p := Pending(s0, order); |started| < |p| && p[..|started| + 1] == started + [idx]
    ensures var p := Pending(s0, order);
      LeadingSuccesses(s0, p, initResult) == |started| && p[|started|] == idx && p[..|started|] == started
    ensures OrderWellFormed(started, |s0|)
    ensures var running := Initialized(s0, started);
      var stopped := AllSelected(|s0|);
      Deinitialized(running, started, stopped) == s0
      && ShutdownCalls(running, started, stopped) == ReverseShutdownCalls(s0, started)
      && InitCalls(s0, started) + [InitializeCall(s0[idx].serviceType)] == InitCalls(s0, started + [idx])
  {
    FailedPassPrefix(s0, order, started, idx, initResult);
    StartThenStop(s0, started);
  }
}
