/**
 * The tick schedule of WorldEcsRuntime (include/WorldEcsRuntime.h):
 * RegisterTickEntry inserts one entry per storage whose type has a tick
 * phase, keeping the entries ordered by (priority, registration sequence).
 */
module WorldTicks {
  import opened Common

  /** Which of the five tick phases a runtime type implements. */
  datatype Phases = Phases(pre: bool, tick: bool, fixed: bool, late: bool, post: bool)

  predicate HasAnyPhase(p: Phases) {
    p.pre || p.tick || p.fixed || p.late || p.post
  }

  /** TickEntry: priority, registration sequence, storage and the phases it dispatches. */
  datatype TickEntry = TickEntry(priority: int, sequence: nat, storage: Ptr, phases: Phases)

  /** The comparator handed to std::lower_bound: priority first, then sequence. */
  predicate Before(a: TickEntry, b: TickEntry) {
    a.priority < b.priority || (a.priority == b.priority && a.sequence < b.sequence)
  }

  predicate Sorted(s: seq<TickEntry>) {
    forall i, j :: 0 <= i < j < |s| ==> Before(s[i], s[j])
  }

  /**
   * std::lower_bound by binary search: the first position whose entry is
   * not Before `e`.
   */
  method LowerBound(s: seq<TickEntry>, e: TickEntry) returns (pos: nat)
    requires Sorted(s)
    ensures pos <= |s|
    ensures forall k :: 0 <= k < pos ==> Before(s[k], e)
    ensures forall k :: pos <= k < |s| ==> !Before(s[k], e)
  {
    var lo, hi := 0, |s|;
    while lo < hi
      invariant 0 <= lo <= hi <= |s|
      invariant forall k :: 0 <= k < lo ==> Before(s[k], e)
      invariant forall k :: hi <= k < |s| ==> !Before(s[k], e)
    {
      var mid := lo + (hi - lo) / 2;
      if Before(s[mid], e) {
        lo := mid + 1;
      } else {
        hi := mid;
      }
    }
    pos := lo;
  }

  /** The schedule after inserting `e` at position `pos`. */
  function InsertAt(s: seq<TickEntry>, pos: nat, e: TickEntry): (r: seq<TickEntry>)
    requires pos <= |s|
  {
    s[..pos] + [e] + s[pos..]
  }

  /**
   * Inserting at the lower bound of an entry that ties with none keeps the
   * schedule sorted and adds exactly that entry.
   */
  lemma {:induction false} InsertKeepsSorted(s: seq<TickEntry>, pos: nat, e: TickEntry)
    requires Sorted(s) && pos <= |s|
    requires forall k :: 0 <= k < pos ==> Before(s[k], e)
    requires forall k :: pos <= k < |s| ==> Before(e, s[k])
    ensures Sorted(InsertAt(s, pos, e))
    ensures multiset(InsertAt(s, pos, e)) == multiset(s) + multiset{e}
    ensures |InsertAt(s, pos, e)| == |s| + 1 && InsertAt(s, pos, e)[pos] == e
  {
    var r := InsertAt(s, pos, e);
    assert forall k :: 0 <= k < |r| ==> r[k] == (if k < pos then s[k] else if k == pos then e else s[k - 1]);
    assert s == s[..pos] + s[pos..];
  }

  /** m_tickEntries and m_nextTickSequence. */
  class Schedule {
    var entries: seq<TickEntry>
    var nextSequence: nat

    /**
     * Sorted by (priority, sequence); every entry dispatches some phase and
     * was numbered before the next sequence.
     */
    ghost predicate Valid()
      reads this
    {
      && Sorted(entries)
      && (forall k :: 0 <= k < |entries| ==> HasAnyPhase(entries[k].phases))
      && (forall k :: 0 <= k < |entries| ==> entries[k].sequence < nextSequence)
    }

    constructor ()
      ensures Valid() && entries == [] && nextSequence == 0
    {
      entries, nextSequence := [], 0;
    }

    /**
     * RegisterTickEntry: a type with no tick phase leaves the schedule and
     * the sequence counter alone; otherwise the entry takes the next
     * sequence number and goes after every entry of lower priority and
     * every earlier entry of equal priority, before all the rest.
     */
    method RegisterTickEntry(storage: Ptr, priority: int, phases: Phases)
      requires Valid()
      modifies this
      ensures Valid()
      ensures !HasAnyPhase(phases) ==> entries == old(entries) && nextSequence == old(nextSequence)
      ensures HasAnyPhase(phases) ==> nextSequence == old(nextSequence) + 1
      ensures HasAnyPhase(phases) ==>
                multiset(entries) == multiset(old(entries)) + multiset{TickEntry(priority, old(nextSequence), storage, phases)}
      ensures HasAnyPhase(phases) ==> exists pos :: (0 <= pos <= |old(entries)| &&
                entries == InsertAt(old(entries), pos, TickEntry(priority, old(nextSequence), storage, phases)))
    {
      if !HasAnyPhase(phases) {
        return;
      }
      var e := TickEntry(priority, nextSequence, storage, phases);
      nextSequence := nextSequence + 1;
      var pos := LowerBound(entries, e);
      forall k | pos <= k < |entries|
        ensures Before(e, entries[k])
      {
        assert entries[k].sequence < e.sequence;
      }
      InsertKeepsSorted(entries, pos, e);
      ghost var old0 := entries;
      entries := InsertAt(entries, pos, e);
      assert forall k :: 0 <= k < |entries| ==> entries[k] == e || entries[k] in old0;
    }
  }

  /** Entries of equal priority run in the order they were registered. */
  lemma RegistrationOrderWithinPriority(s: seq<TickEntry>, i: nat, j: nat)
    requires Sorted(s) && i < j < |s| && s[i].priority == s[j].priority
    ensures s[i].sequence < s[j].sequence
  {
  }

  /** Every lower-priority entry runs before any higher-priority one. */
  lemma LowerPriorityFirst(s: seq<TickEntry>, i: nat, j: nat)
    requires Sorted(s) && i < |s| && j < |s| && s[i].priority < s[j].priority
    ensures i < j
  {
  }
}
