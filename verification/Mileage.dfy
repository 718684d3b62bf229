/**
 Mileage that goes backwards.

 The readings of each VIN are put in date order (a stable sort, undated readings last) and scanned
 with a running maximum.  The specification compares readings pair by pair and sorts nothing.
 */
module Mileage {
  import opened Wrappers
  import opened ImportModels
  import opened DuplicateDetection

  datatype Repair = Repair(vin: Option<string>, mileage: Option<int>, performedAt: Option<int>)

  /** A repair that takes part in the comparison, and under which VIN. */
  function VinKey(r: Repair): Option<string> {
    if Truthy(r.vin) && r.mileage.Some? then r.vin else None
  }

  function VinKeys(repairs: seq<Repair>): seq<Option<string>> {
    seq(|repairs|, i requires 0 <= i < |repairs| => VinKey(repairs[i]))
  }

  /** Stable date order: by date, then by position; undated readings after all dated ones. */
  predicate Before(repairs: seq<Repair>, i: nat, j: nat)
    requires i < |repairs| && j < |repairs|
  {
    match (repairs[i].performedAt, repairs[j].performedAt)
    case (Some(a), Some(b)) => a < b || (a == b && i < j)
    case (Some(_), None) => true
    case (None, Some(_)) => false
    case (None, None) => i < j
  }

  predicate SameVin(repairs: seq<Repair>, i: nat, j: nat)
    requires i < |repairs| && j < |repairs|
  {
    Share(VinKey(repairs[i]), VinKey(repairs[j]))
  }

  // ---------------------------------------------------------------- the scan

  predicate DatedRow(repairs: seq<Repair>, r: nat) {
    r < |repairs| && repairs[r].performedAt.Some?
  }

  predicate Dated(repairs: seq<Repair>, rows: seq<nat>) {
    forall k :: 0 <= k < |rows| ==> DatedRow(repairs, rows[k])
  }

  /** Puts row `x` behind every row whose date is not later. */
  function Insert(repairs: seq<Repair>, sorted: seq<nat>, x: nat): (r: seq<nat>)
    requires Dated(repairs, sorted) && DatedRow(repairs, x)
    ensures Dated(repairs, r) && forall y :: y in r <==> y == x || y in sorted
    ensures |r| == |sorted| + 1
  {
    if sorted == [] then [x]
    else
      var last, init := sorted[|sorted| - 1], sorted[..|sorted| - 1];
      assert sorted == init + [last];
      if repairs[last].performedAt.value <= repairs[x].performedAt.value then sorted + [x]
      else Insert(repairs, init, x) + [last]
  }

  /** `list.sort` by date: stable. */
  function SortByDate(repairs: seq<Repair>, rows: seq<nat>): (sorted: seq<nat>)
    requires Dated(repairs, rows)
    ensures Dated(repairs, sorted) && forall y :: y in sorted <==> y in rows
    ensures |sorted| == |rows|
  {
    if rows == [] then []
    else
      var init := rows[..|rows| - 1];
      assert rows == init + [rows[|rows| - 1]];
      Insert(repairs, SortByDate(repairs, init), rows[|rows| - 1])
  }

  ghost predicate InOrder(repairs: seq<Repair>, rows: seq<nat>) {
    && (forall k :: 0 <= k < |rows| ==> rows[k] < |repairs|)
    && forall a, b :: 0 <= a < b < |rows| ==> Before(repairs, rows[a], rows[b])
  }

  /** A row behind everything in an ordered list keeps it ordered. */
  lemma SnocKeepsOrder(repairs: seq<Repair>, rows: seq<nat>, last: nat)
    requires InOrder(repairs, rows) && last < |repairs|
    requires forall k :: 0 <= k < |rows| ==> Before(repairs, rows[k], last)
    ensures InOrder(repairs, rows + [last])
  {
    hide Before;
  }

  lemma InOrderFront(repairs: seq<Repair>, rows: seq<nat>)
    requires InOrder(repairs, rows) && rows != []
    ensures InOrder(repairs, rows[..|rows| - 1])
    ensures forall k :: 0 <= k < |rows| - 1 ==> rows[k] < |repairs| && Before(repairs, rows[k], rows[|rows| - 1])
  {
    hide Before;
  }

  lemma {:induction false} InsertKeepsOrder(repairs: seq<Repair>, sorted: seq<nat>, x: nat)
    requires Dated(repairs, sorted) && DatedRow(repairs, x) && InOrder(repairs, sorted)
    requires forall k :: 0 <= k < |sorted| ==> sorted[k] < x
    ensures InOrder(repairs, Insert(repairs, sorted, x))
  {
    hide InOrder;
    if sorted == [] {
      OneRowIsInOrder(repairs, x);
    } else {
      var last, init := sorted[|sorted| - 1], sorted[..|sorted| - 1];
      InOrderFront(repairs, sorted);
      if repairs[last].performedAt.value > repairs[x].performedAt.value {
        InsertKeepsOrder(repairs, init, x);
        var ins := Insert(repairs, init, x);
        forall k | 0 <= k < |ins|
          ensures Before(repairs, ins[k], last)
        {
          assert ins[k] in ins;
          if ins[k] != x {
            var a :| 0 <= a < |init| && init[a] == ins[k];
            assert sorted[a] == ins[k];
          }
        }
        SnocKeepsOrder(repairs, ins, last);
      } else {
        forall a | 0 <= a < |sorted|
          ensures Before(repairs, sorted[a], x)
        {
          assert a < |init| ==> Before(repairs, sorted[a], last);
        }
        SnocKeepsOrder(repairs, sorted, x);
      }
    }
  }

  lemma OneRowIsInOrder(repairs: seq<Repair>, x: nat)
    requires x < |repairs|
    ensures InOrder(repairs, [x])
  {
  }

  lemma {:induction false} SortIsInOrder(repairs: seq<Repair>, rows: seq<nat>)
    requires Dated(repairs, rows) && Rising(rows)
    ensures InOrder(repairs, SortByDate(repairs, rows))
  {
    if rows != [] {
      var init, x := rows[..|rows| - 1], rows[|rows| - 1];
      SortIsInOrder(repairs, init);
      var sorted := SortByDate(repairs, init);
      forall k | 0 <= k < |sorted|
        ensures sorted[k] < x
      {
        assert sorted[k] in sorted;
      }
      InsertKeepsOrder(repairs, sorted, x);
    }
  }

  /** The rows of one VIN that have a date (`dated`) or have none, in their order. */
  method Split(repairs: seq<Repair>, rows: seq<nat>, dated: bool) returns (part: seq<nat>)
    requires Rising(rows) && forall k :: 0 <= k < |rows| ==> rows[k] < |repairs|
    ensures Rising(part) && forall r :: r in part <==> r in rows && repairs[r].performedAt.Some? == dated
  {
    part := [];
    for k := 0 to |rows|
      invariant Rising(part) && forall r :: r in part <==> r in rows[..k] && repairs[r].performedAt.Some? == dated
    {
      assert rows[..k + 1] == rows[..k] + [rows[k]];
      if repairs[rows[k]].performedAt.Some? == dated {
        assert forall a :: 0 <= a < |part| ==> part[a] in part;
        part := part + [rows[k]];
      }
    }
    assert rows[..|rows|] == rows;
  }

  /** The rows of one VIN, dated ones sorted and undated ones behind them. */
  method OrderGroup(repairs: seq<Repair>, rows: seq<nat>) returns (ordered: seq<nat>)
    requires Rising(rows) && forall k :: 0 <= k < |rows| ==> rows[k] < |repairs|
    ensures (forall r :: r in ordered <==> r in rows) && InOrder(repairs, ordered)
  {
    hide SortByDate;
    hide Insert;
    var dated := Split(repairs, rows, true);
    var undated := Split(repairs, rows, false);
    assert forall k :: 0 <= k < |dated| ==> dated[k] in dated;
    assert forall k :: 0 <= k < |undated| ==> undated[k] in undated;
    SortIsInOrder(repairs, dated);
    var sorted := SortByDate(repairs, dated);
    assert forall k :: 0 <= k < |sorted| ==> sorted[k] in sorted;
    ordered := sorted + undated;
  }

  ghost predicate NoRepeat(rows: seq<nat>) {
    forall a, b :: 0 <= a < b < |rows| ==> rows[a] != rows[b]
  }

  /** The scan of one VIN: the rows whose reading is below the largest seen so far. */
  method ScanGroup(repairs: seq<Repair>, rows: seq<nat>) returns (flagged: seq<nat>)
    requires Rising(rows) && forall k :: 0 <= k < |rows| ==> rows[k] < |repairs| && repairs[rows[k]].mileage.Some?
    ensures forall j :: j in flagged <==> j in rows && |rows| >= 2 && GoesBack(repairs, rows, j)
    ensures NoRepeat(flagged)
  {
    var ordered := OrderGroup(repairs, rows);
    flagged := [];
    SameRows(repairs, rows, ordered);
    if |ordered| < 2 { return; }
    var maxSeen := -1;
    for k := 0 to |ordered|
      invariant maxSeen >= -1 && forall a :: 0 <= a < k ==> Reading(repairs, ordered[a]) <= maxSeen
      invariant maxSeen == -1 || exists a :: 0 <= a < k && Reading(repairs, ordered[a]) == maxSeen
      invariant forall j :: j in flagged <==> j in ordered[..k] && GoesBack(repairs, rows, j)
      invariant NoRepeat(flagged)
    {
      var j := ordered[k];
      assert ordered[..k + 1] == ordered[..k] + [j];
      assert (Reading(repairs, j) < maxSeen) == GoesBack(repairs, rows, j) by {
        ScanStep(repairs, rows, ordered, k, maxSeen);
      }
      assert j !in ordered[..k] by { NotEarlier(repairs, ordered, k); }
      if Reading(repairs, j) < maxSeen {
        flagged := flagged + [j];
      }
      if Reading(repairs, j) > maxSeen { maxSeen := Reading(repairs, j); }
    }
    assert ordered[..|ordered|] == ordered;
  }

  function Reading(repairs: seq<Repair>, i: nat): int {
    if i < |repairs| && repairs[i].mileage.Some? then repairs[i].mileage.value else 0
  }

  /** Below -1, or below some reading that comes before it. */
  ghost predicate GoesBack(repairs: seq<Repair>, rows: seq<nat>, j: nat)
    requires forall k :: 0 <= k < |rows| ==> rows[k] < |repairs|
  {
    j < |repairs| &&
    (Reading(repairs, j) < -1
     || exists i :: i in rows && Before(repairs, i, j) && Reading(repairs, j) < Reading(repairs, i))
  }

  /** Two orders of the same rows, both without repetition, are equally long. */
  lemma SameRows(repairs: seq<Repair>, rows: seq<nat>, ordered: seq<nat>)
    requires (forall r :: r in ordered <==> r in rows) && Rising(rows) && InOrder(repairs, ordered)
    ensures |ordered| == |rows|
  {
    forall a, b | 0 <= a < b < |ordered|
      ensures ordered[a] != ordered[b]
    {
      assert Before(repairs, ordered[a], ordered[b]);
    }
    NoRepeats(rows);
    NoRepeats(ordered);
    assert RowSet(rows) == RowSet(ordered);
  }

  function RowSet(rows: seq<nat>): set<nat> {
    set r | r in rows
  }

  lemma {:induction false} NoRepeats(rows: seq<nat>)
    requires forall a, b :: 0 <= a < b < |rows| ==> rows[a] != rows[b]
    ensures |RowSet(rows)| == |rows|
  {
    if rows != [] {
      var last, init := rows[|rows| - 1], rows[..|rows| - 1];
      NoRepeats(init);
      assert last !in RowSet(init);
      assert rows == init + [last];
      assert RowSet(rows) == RowSet(init) + {last};
    } else {
      assert RowSet(rows) == {};
    }
  }

  lemma NotEarlier(repairs: seq<Repair>, ordered: seq<nat>, k: nat)
    requires InOrder(repairs, ordered) && k < |ordered|
    ensures ordered[k] !in ordered[..k]
  {
    forall a | 0 <= a < k
      ensures ordered[a] != ordered[k]
    {
      assert Before(repairs, ordered[a], ordered[k]);
    }
  }

  lemma ScanStep(repairs: seq<Repair>, rows: seq<nat>, ordered: seq<nat>, k: nat, maxSeen: int)
    requires (forall j :: j in ordered <==> j in rows) && InOrder(repairs, ordered) && k < |ordered|
    requires forall x :: 0 <= x < |rows| ==> rows[x] < |repairs|
    requires maxSeen >= -1 && forall a :: 0 <= a < k ==> Reading(repairs, ordered[a]) <= maxSeen
    requires maxSeen == -1 || exists a :: 0 <= a < k && Reading(repairs, ordered[a]) == maxSeen
    ensures Reading(repairs, ordered[k]) < maxSeen <==> GoesBack(repairs, rows, ordered[k])
  {
    var j := ordered[k];
    if GoesBack(repairs, rows, j) && Reading(repairs, j) >= -1 {
      var i :| i in rows && Before(repairs, i, j) && Reading(repairs, j) < Reading(repairs, i);
      assert i in ordered;
      var a :| 0 <= a < |ordered| && ordered[a] == i;
      assert a < k;
    }
    if Reading(repairs, j) < maxSeen && maxSeen > -1 {
      var a :| 0 <= a < k && Reading(repairs, ordered[a]) == maxSeen;
      assert Before(repairs, ordered[a], ordered[k]);
      assert ordered[a] in ordered;
    }
  }

  // ---------------------------------------------------------------- all VINs

  ghost predicate Alone(repairs: seq<Repair>, j: nat)
    requires j < |repairs|
  {
    forall i :: 0 <= i < |repairs| && SameVin(repairs, i, j) ==> i == j
  }

  /** The condition a flag stands for, without any order of scanning. */
  ghost predicate Inconsistent(repairs: seq<Repair>, j: nat)
    requires j < |repairs|
  {
    && VinKey(repairs[j]).Some? && !Alone(repairs, j)
    && (Reading(repairs, j) < -1
        || exists i ::
            0 <= i < |repairs| && SameVin(repairs, i, j) && Before(repairs, i, j)
            && Reading(repairs, j) < Reading(repairs, i))
  }

  /**
   The condition by fields: a repair with a VIN and a reading, which another repair of that VIN has too, is inconsistent
   exactly when its reading is below -1 or below one of that VIN that comes before it: of an earlier date, of the same
   date and further up, or, where it has no date itself, of any date or without one and further up.
   */
  lemma InconsistentExactlyWhen(repairs: seq<Repair>, j: nat)
    requires j < |repairs|
    ensures Inconsistent(repairs, j) <==>
            && repairs[j].vin.Some? && repairs[j].vin != Some("") && repairs[j].mileage.Some?
            && (exists i ::
                  0 <= i < |repairs| && i != j && repairs[i].vin == repairs[j].vin && repairs[i].mileage.Some?)
            && (repairs[j].mileage.value < -1 || exists i ::
                  0 <= i < |repairs| && repairs[i].vin == repairs[j].vin && ReadMoreBefore(repairs, i, j))
  {
    if i :| 0 <= i < |repairs| && SameVin(repairs, i, j) && i != j { assert repairs[i].vin == repairs[j].vin; }
    if i :| 0 <= i < |repairs| && i != j && repairs[i].vin == repairs[j].vin && repairs[i].mileage.Some? {
      assert VinKey(repairs[j]).Some? ==> SameVin(repairs, i, j);
    }
    forall i | 0 <= i < |repairs| && VinKey(repairs[j]).Some?
      ensures SameVin(repairs, i, j) && Before(repairs, i, j) && Reading(repairs, j) < Reading(repairs, i) <==>
              repairs[i].vin == repairs[j].vin && ReadMoreBefore(repairs, i, j)
    {
    }
  }

  /** Repair `i` has a larger reading, and an earlier date, the same further up, or the only one or none further up. */
  predicate ReadMoreBefore(repairs: seq<Repair>, i: nat, j: nat)
    requires i < |repairs| && j < |repairs| && repairs[j].mileage.Some?
  {
    && repairs[i].mileage.Some? && repairs[i].mileage.value > repairs[j].mileage.value
    && match repairs[j].performedAt
       case Some(date) =>
         && repairs[i].performedAt.Some?
         && (repairs[i].performedAt.value < date || (repairs[i].performedAt.value == date && i < j))
       case None => repairs[i].performedAt.Some? || i < j
  }

  lemma GroupDecides(repairs: seq<Repair>, g: Groups, k: string, j: nat)
    requires Grouped(g, VinKeys(repairs)) && k in g.rows && j in g.rows[k]
    ensures forall x :: 0 <= x < |g.rows[k]| ==> g.rows[k][x] < |repairs|
    ensures j < |repairs| && VinKey(repairs[j]) == Some(k)
    ensures Inconsistent(repairs, j) <==> |g.rows[k]| >= 2 && GoesBack(repairs, g.rows[k], j)
  {
    var rows, keyOf := g.rows[k], VinKeys(repairs);
    forall i
      ensures i in rows <==> 0 <= i < |repairs| && VinKey(repairs[i]) == Some(k)
    {
      if i in rows {
        var x :| 0 <= x < |rows| && rows[x] == i;
        assert keyOf[rows[x]] == Some(k);
      }
      if 0 <= i < |repairs| && VinKey(repairs[i]) == Some(k) { assert keyOf[i] == Some(k); }
    }
    if |rows| >= 2 {
      assert rows[0] != rows[1] && rows[0] in rows && rows[1] in rows;
      assert SameVin(repairs, rows[0], j) && SameVin(repairs, rows[1], j);
      assert !Alone(repairs, j);
    } else {
      assert Alone(repairs, j);
    }
  }

  lemma FiledOnce(g: Groups, key: Option<string>, i: nat)
    requires Distinct(g.keys) && forall k :: k in g.keys <==> k in g.rows
    ensures Distinct(Filed(g, key, i).keys)
  {
  }

  /** The dictionary of readings by VIN. */
  method GroupByVin(repairs: seq<Repair>) returns (g: Groups)
    ensures Grouped(g, VinKeys(repairs)) && Distinct(g.keys)
  {
    g := Groups([], map[]);
    var i := 0;
    while i < |repairs|
      invariant 0 <= i <= |repairs| && Grouped(g, VinKeys(repairs)[..i]) && Distinct(g.keys)
    {
      FiledIsGrouped(g, VinKeys(repairs)[..i], VinKey(repairs[i]));
      FiledOnce(g, VinKey(repairs[i]), i);
      assert VinKeys(repairs)[..i + 1] == VinKeys(repairs)[..i] + [VinKey(repairs[i])];
      g := Filed(g, VinKey(repairs[i]), i);
      i := i + 1;
    }
    assert VinKeys(repairs)[..i] == VinKeys(repairs);
  }

  lemma AppendNoRepeat(before: seq<nat>, more: seq<nat>)
    requires NoRepeat(before) && NoRepeat(more) && forall j :: j in more ==> j !in before
    ensures NoRepeat(before + more)
  {
    var all := before + more;
    forall a, b | 0 <= a < b < |all|
      ensures all[a] != all[b]
    {
      if a < |before| <= b {
        assert all[a] in before && all[b] == more[b - |before|] && all[b] in more;
      }
    }
  }

  /** A row of one VIN is not flagged under another. */
  lemma FlaggedUnderOneVin(repairs: seq<Repair>, g: Groups, k: string, k': string, j: nat)
    requires Grouped(g, VinKeys(repairs)) && FlaggedIn(repairs, g, k, j) && FlaggedIn(repairs, g, k', j)
    ensures k == k'
  {
    GroupDecides(repairs, g, k, j);
    GroupDecides(repairs, g, k', j);
  }

  lemma ReadyToScan(repairs: seq<Repair>, g: Groups, k: string)
    requires Grouped(g, VinKeys(repairs)) && k in g.rows
    ensures Rising(g.rows[k])
    ensures forall x :: 0 <= x < |g.rows[k]| ==> g.rows[k][x] < |repairs| && repairs[g.rows[k][x]].mileage.Some?
  {
    forall x | 0 <= x < |g.rows[k]|
      ensures g.rows[k][x] < |repairs| && repairs[g.rows[k][x]].mileage.Some?
    {
      assert g.rows[k][x] in g.rows[k];
      GroupDecides(repairs, g, k, g.rows[k][x]);
    }
  }

  /** Flagged so far: what the scans of the first `n` groups flag. */
  ghost predicate FlaggedUpTo(repairs: seq<Repair>, g: Groups, n: nat, flagged: seq<nat>)
    requires n <= |g.keys|
  {
    forall j :: j in flagged <==> exists m :: 0 <= m < n && FlaggedIn(repairs, g, g.keys[m], j)
  }

  lemma OneMoreScanned(repairs: seq<Repair>, g: Groups, n: nat, flagged: seq<nat>, more: seq<nat>)
    requires Grouped(g, VinKeys(repairs)) && Distinct(g.keys) && n < |g.keys|
    requires FlaggedUpTo(repairs, g, n, flagged)
    requires forall j :: j in more <==> FlaggedIn(repairs, g, g.keys[n], j)
    ensures FlaggedUpTo(repairs, g, n + 1, flagged + more)
    ensures forall j :: j in more ==> j !in flagged
  {
    hide Grouped;
    hide FlaggedIn;
    forall j | j in more
      ensures j !in flagged
    {
      if j in flagged {
        var m :| 0 <= m < n && FlaggedIn(repairs, g, g.keys[m], j);
        FlaggedUnderOneVin(repairs, g, g.keys[m], g.keys[n], j);
      }
    }
  }

  /** A repair is flagged exactly when it is inconsistent, and only once. */
  method ValidateMileage(repairs: seq<Repair>) returns (flagged: seq<nat>)
    ensures forall j :: j in flagged <==> 0 <= j < |repairs| && Inconsistent(repairs, j)
    ensures NoRepeat(flagged)
  {
    hide Inconsistent;
    var g := GroupByVin(repairs);
    flagged := [];
    var m := 0;
    while m < |g.keys|
      invariant 0 <= m <= |g.keys|
      invariant FlaggedUpTo(repairs, g, m, flagged) && NoRepeat(flagged)
    {
      assert g.keys[m] in g.keys;
      ReadyToScan(repairs, g, g.keys[m]);
      var more := ScanGroup(repairs, g.rows[g.keys[m]]);
      OneMoreScanned(repairs, g, m, flagged, more);
      AppendNoRepeat(flagged, more);
      flagged := flagged + more;
      m := m + 1;
    }
    FlagsAreInconsistencies(repairs, g, flagged);
  }

  ghost predicate FlaggedIn(repairs: seq<Repair>, g: Groups, k: string, j: nat) {
    && k in g.rows && (forall x :: 0 <= x < |g.rows[k]| ==> g.rows[k][x] < |repairs|)
    && j in g.rows[k] && |g.rows[k]| >= 2 && GoesBack(repairs, g.rows[k], j)
  }

  lemma FlagsAreInconsistencies(repairs: seq<Repair>, g: Groups, flagged: seq<nat>)
    requires Grouped(g, VinKeys(repairs))
    requires forall j :: j in flagged <==> exists m :: 0 <= m < |g.keys| && FlaggedIn(repairs, g, g.keys[m], j)
    ensures forall j :: j in flagged <==> 0 <= j < |repairs| && Inconsistent(repairs, j)
  {
    forall j
      ensures j in flagged <==> 0 <= j < |repairs| && Inconsistent(repairs, j)
    {
      if j in flagged {
        var m :| 0 <= m < |g.keys| && FlaggedIn(repairs, g, g.keys[m], j);
        GroupDecides(repairs, g, g.keys[m], j);
      }
      if 0 <= j < |repairs| && Inconsistent(repairs, j) {
        var k := VinKey(repairs[j]).value;
        assert VinKeys(repairs)[j] == Some(k);
        GroupDecides(repairs, g, k, j);
        assert k in g.keys;
        var m :| 0 <= m < |g.keys| && g.keys[m] == k;
        assert FlaggedIn(repairs, g, g.keys[m], j);
      }
    }
  }

  /** Two readings of one VIN, the first before the second. */
  predicate InTurn(repairs: seq<Repair>, vin: string, i: nat, j: nat)
    requires i < |repairs| && j < |repairs|
  {
    VinKey(repairs[i]) == VinKey(repairs[j]) == Some(vin) && Before(repairs, i, j)
  }

  /** With no negative reading, a VIN is free of flags exactly when its readings never fall in date order. */
  lemma NoFlagMeansNeverFalling(repairs: seq<Repair>, vin: string)
    requires forall i :: 0 <= i < |repairs| && VinKey(repairs[i]) == Some(vin) ==> Reading(repairs, i) >= 0
    ensures (forall j :: 0 <= j < |repairs| && VinKey(repairs[j]) == Some(vin) ==> !Inconsistent(repairs, j))
       <==> (forall i, j | 0 <= i < |repairs| && 0 <= j < |repairs| && InTurn(repairs, vin, i, j) ::
               Reading(repairs, i) <= Reading(repairs, j))
  {
    if i, j :|
      && 0 <= i < |repairs| && 0 <= j < |repairs| && InTurn(repairs, vin, i, j)
      && Reading(repairs, i) > Reading(repairs, j)
    {
      assert SameVin(repairs, i, j) && i != j;
      assert Inconsistent(repairs, j);
    }
  }
}
