/** The record store behind the harness: a DynamoDB table of seeded responses,
    and `getAndDeleteLastRecord`, which scans the table, sorts the records by
    their numeric sort key `sk`, deletes the first one and returns it. */
module DatabaseAdapter {
  import opened Wrappers

  /** A JSON value: the response body a record is served with. The store never
      inspects it. */
  datatype Json =
    | JNull
    | JBool(b: bool)
    | JNumber(n: int)
    | JString(s: string)
    | JArray(elements: seq<Json>)
    | JObject(members: seq<(string, Json)>)

  /** One seeded response: partition key, numeric sort key, the status code to
      answer with and the response body. */
  datatype DatabaseRecord = DatabaseRecord(pk: string, sk: int, statusCode: int, response: Json)

  /** Why `getAndDeleteLastRecord` throws. */
  datatype StoreError =
    | NoItemsToRetrieve  // the scan found no item
    | ScanFailed         // the scan command failed (store unreachable, no such table, ...)
    | DeleteFailed       // the delete command failed after a successful scan

  /** The message of the error thrown when the scan finds no item. */
  const NoItemsMessage := "no items to retrieve"

  /** Whether each of the two commands sent to the persistence layer fails on
      this call; the persistence layer itself is not part of the model. */
  datatype Faults = Faults(scanFails: bool, deleteFails: bool)

  /** A table holds at most one record per key `(pk, sk)`. */
  ghost predicate KeysDistinct(s: seq<DatabaseRecord>) {
    forall i, j | 0 <= i < j < |s| :: s[i].pk != s[j].pk || s[i].sk != s[j].sk
  }

  /** No two records share a sort key (the usual way a harness is seeded). */
  ghost predicate SortKeysDistinct(s: seq<DatabaseRecord>) {
    forall i, j | 0 <= i < j < |s| :: s[i].sk != s[j].sk
  }

  /** The records are in ascending order of sort key. */
  ghost predicate Ascending(s: seq<DatabaseRecord>) {
    forall i, j | 0 <= i < j < |s| :: s[i].sk <= s[j].sk
  }

  /** The records are in strictly ascending order of sort key. */
  ghost predicate StrictlyAscending(s: seq<DatabaseRecord>) {
    forall i, j | 0 <= i < j < |s| :: s[i].sk < s[j].sk
  }

  // ---------------------------------------------------------------------------
  // Sorting by `sk` (`items.sort((a, b) => a.sk - b.sk)`)
  // ---------------------------------------------------------------------------

  /** Inserts `x` behind the last element whose sort key is at most `x.sk`
      (in front of the run of larger ones at the end): one step of a stable
      insertion sort. */
  function InsertBySk(t: seq<DatabaseRecord>, x: DatabaseRecord): (r: seq<DatabaseRecord>)
    ensures |r| == |t| + 1
    decreases |t|
  {
    if |t| == 0 || t[|t| - 1].sk <= x.sk then t + [x]
    else InsertBySk(t[..|t| - 1], x) + [t[|t| - 1]]
  }

  /** The records stably sorted by ascending sort key. The comparator
      `a.sk - b.sk` orders by `sk` alone and the sort of ECMAScript 2019 and
      later is stable, so every conforming sort gives exactly this sequence. */
  function SortBySk(s: seq<DatabaseRecord>): (r: seq<DatabaseRecord>)
    ensures |r| == |s|
    decreases |s|
  {
    if |s| == 0 then [] else InsertBySk(SortBySk(s[..|s| - 1]), s[|s| - 1])
  }

  lemma {:induction false} InsertPermutation(t: seq<DatabaseRecord>, x: DatabaseRecord)
    ensures multiset(InsertBySk(t, x)) == multiset(t) + multiset{x}
    decreases |t|
  {
    if |t| == 0 || t[|t| - 1].sk <= x.sk {
    } else {
      var init := t[..|t| - 1];
      var last := t[|t| - 1];
      InsertPermutation(init, x);
      assert InsertBySk(t, x) == InsertBySk(init, x) + [last];
      assert t == init + [last];
      assert multiset(t) == multiset(init) + multiset{last};
    }
  }

  /** Sorting only reorders the records. */
  lemma {:induction false} SortPermutation(s: seq<DatabaseRecord>)
    ensures multiset(SortBySk(s)) == multiset(s)
    decreases |s|
  {
    if |s| > 0 {
      var init := s[..|s| - 1];
      var last := s[|s| - 1];
      SortPermutation(init);
      InsertPermutation(SortBySk(init), last);
      assert SortBySk(s) == InsertBySk(SortBySk(init), last);
      assert s == init + [last];
      assert multiset(s) == multiset(init) + multiset{last};
    }
  }

  /** An insertion adds `x` and nothing else. */
  lemma InsertMembers(t: seq<DatabaseRecord>, x: DatabaseRecord)
    ensures forall y | y in InsertBySk(t, x) :: y == x || y in t
  {
    InsertPermutation(t, x);
    forall y | y in InsertBySk(t, x) ensures y == x || y in t {
      assert y in multiset(InsertBySk(t, x));
    }
  }

  /** An insertion into an ascending sequence keeps it ascending. */
  lemma {:induction false} InsertAscending(t: seq<DatabaseRecord>, x: DatabaseRecord)
    requires Ascending(t)
    ensures Ascending(InsertBySk(t, x))
    decreases |t|
  {
    var r := InsertBySk(t, x);
    if |t| == 0 || t[|t| - 1].sk <= x.sk {
    } else {
      var init := t[..|t| - 1];
      var last := t[|t| - 1];
      assert Ascending(init) by {
        forall i, j | 0 <= i < j < |init| ensures init[i].sk <= init[j].sk {
          assert init[i] == t[i] && init[j] == t[j];
        }
      }
      InsertAscending(init, x);
      InsertMembers(init, x);
      var r' := InsertBySk(init, x);
      assert r == r' + [last];
      forall y | y in r' ensures y.sk <= last.sk {
        if y != x {
          var k :| 0 <= k < |init| && init[k] == y;
          assert t[k] == y;
        }
      }
      forall i, j | 0 <= i < j < |r| ensures r[i].sk <= r[j].sk {
        if j == |r| - 1 {
          assert r[i] in r';
        } else {
          assert r[i] == r'[i] && r[j] == r'[j];
        }
      }
    }
  }

  /** The sort leaves the records in ascending order of sort key. */
  lemma {:induction false} SortAscending(s: seq<DatabaseRecord>)
    ensures Ascending(SortBySk(s))
    decreases |s|
  {
    if |s| > 0 {
      SortAscending(s[..|s| - 1]);
      InsertAscending(SortBySk(s[..|s| - 1]), s[|s| - 1]);
    }
  }

  /** Where insertion sort stops shifting: behind the last element whose sort key
      is at most `x.sk`, in front of a run of larger ones. */
  lemma {:induction false} InsertAt(t: seq<DatabaseRecord>, x: DatabaseRecord, j: nat)
    requires j <= |t|
    requires j == 0 || t[j - 1].sk <= x.sk
    requires forall k | j <= k < |t| :: t[k].sk > x.sk
    ensures InsertBySk(t, x) == t[..j] + [x] + t[j..]
    decreases |t|
  {
    if j == |t| {
      assert t[..j] == t;
    } else {
      var init := t[..|t| - 1];
      InsertAt(init, x, j);
      assert init[..j] == t[..j];
      assert init[j..] + [t[|t| - 1]] == t[j..];
    }
  }

  /** One pass of insertion sort: with `a[..i]` sorted, shifts the larger
      elements of it one place right and drops `a[i]` into the gap. */
  method InsertInPlace(a: array<DatabaseRecord>, i: nat)
    requires i < a.Length
    modifies a
    ensures a[..i + 1] == InsertBySk(old(a[..i]), old(a[i]))
    ensures a[i + 1..] == old(a[i + 1..])
  {
    ghost var sorted := a[..i];
    ghost var before := a[..];
    var x := a[i];
    var j := i;
    while j > 0 && a[j - 1].sk > x.sk
      invariant 0 <= j <= i
      invariant forall k | 0 <= k < j :: a[k] == sorted[k]
      invariant forall k | j < k <= i :: a[k] == sorted[k - 1]
      invariant forall k | i < k < a.Length :: a[k] == before[k]
      invariant forall k | j <= k < i :: sorted[k].sk > x.sk
    {
      a[j] := a[j - 1];
      j := j - 1;
    }
    a[j] := x;
    InsertAt(sorted, x, j);
    PlacedAt(a[..], sorted, before, x, i, j);
  }

  /** The array after one pass, read as a sequence: the sorted prefix with
      `x` dropped in at `j`, and the rest untouched. */
  lemma PlacedAt(c: seq<DatabaseRecord>, sorted: seq<DatabaseRecord>, before: seq<DatabaseRecord>,
                 x: DatabaseRecord, i: nat, j: nat)
    requires j <= i < |c| == |before| && |sorted| == i
    requires forall k | 0 <= k < j :: c[k] == sorted[k]
    requires c[j] == x
    requires forall k | j < k <= i :: c[k] == sorted[k - 1]
    requires forall k | i < k < |c| :: c[k] == before[k]
    ensures c[..i + 1] == sorted[..j] + [x] + sorted[j..]
    ensures c[i + 1..] == before[i + 1..]
  {
  }

  /** The sort, done in place on the scanned items, as the source does. */
  method SortInPlace(a: array<DatabaseRecord>)
    modifies a
    ensures a[..] == SortBySk(old(a[..]))
  {
    ghost var input := a[..];
    var i := 0;
    while i < a.Length
      invariant 0 <= i <= a.Length
      invariant a[..i] == SortBySk(input[..i])
      invariant a[i..] == input[i..]
    {
      InsertInPlace(a, i);
      assert input[..i + 1][..i] == input[..i];
      i := i + 1;
    }
    assert a[..] == a[..a.Length];
    assert input == input[..a.Length];
  }

  // ---------------------------------------------------------------------------
  // Which record is taken
  // ---------------------------------------------------------------------------

  /** The position of the first record, in scan order, with the smallest sort key. */
  function FirstMinIndex(s: seq<DatabaseRecord>): (k: nat)
    requires |s| > 0
    ensures k < |s|
    ensures forall j | 0 <= j < |s| :: s[k].sk <= s[j].sk
    ensures forall j | 0 <= j < k :: s[j].sk > s[k].sk
    decreases |s|
  {
    if |s| == 1 then 0
    else
      var k := FirstMinIndex(s[..|s| - 1]);
      if s[|s| - 1].sk < s[k].sk then |s| - 1 else k
  }

  lemma {:induction false} InsertHead(t: seq<DatabaseRecord>, y: DatabaseRecord)
    requires Ascending(t) && |t| > 0
    ensures InsertBySk(t, y)[0] == if y.sk < t[0].sk then y else t[0]
    decreases |t|
  {
    if t[|t| - 1].sk <= y.sk {
    } else if |t| > 1 {
      InsertHead(t[..|t| - 1], y);
    }
  }

  /** Element 0 of the sorted items is the first record in scan order with the
      smallest sort key. */
  lemma {:induction false} SortHead(s: seq<DatabaseRecord>)
    requires |s| > 0
    ensures SortBySk(s)[0] == s[FirstMinIndex(s)]
    decreases |s|
  {
    if |s| > 1 {
      var init := s[..|s| - 1];
      SortHead(init);
      SortAscending(init);
      InsertHead(SortBySk(init), s[|s| - 1]);
    }
  }

  // ---------------------------------------------------------------------------
  // Deleting by key (`DeleteItemCommand` with `Key: { pk, sk }`)
  // ---------------------------------------------------------------------------

  /** The table after an unconditional delete of key `(pk, sk)`. */
  function DeleteKey(s: seq<DatabaseRecord>, pk: string, sk: int): (r: seq<DatabaseRecord>)
    ensures |r| <= |s|
    decreases |s|
  {
    if |s| == 0 then []
    else if s[0].pk == pk && s[0].sk == sk then DeleteKey(s[1..], pk, sk)
    else [s[0]] + DeleteKey(s[1..], pk, sk)
  }

  /** The delete keeps exactly the records with another key. */
  lemma {:induction false} DeleteKeyMembers(s: seq<DatabaseRecord>, pk: string, sk: int)
    ensures forall x :: x in DeleteKey(s, pk, sk) <==> x in s && (x.pk != pk || x.sk != sk)
    decreases |s|
  {
    if |s| > 0 {
      DeleteKeyMembers(s[1..], pk, sk);
      assert s == [s[0]] + s[1..];
    }
  }

  lemma {:induction false} DeleteAbsentKey(s: seq<DatabaseRecord>, pk: string, sk: int)
    requires forall x | x in s :: x.pk != pk || x.sk != sk
    ensures DeleteKey(s, pk, sk) == s
    decreases |s|
  {
    if |s| > 0 {
      DeleteAbsentKey(s[1..], pk, sk);
      assert s == [s[0]] + s[1..];
    }
  }

  /** The records after the first of a table with distinct keys have distinct keys. */
  lemma KeysDistinctTail(s: seq<DatabaseRecord>)
    requires KeysDistinct(s) && |s| > 0
    ensures KeysDistinct(s[1..])
  {
    forall i, j | 0 <= i < j < |s[1..]| ensures s[1..][i].pk != s[1..][j].pk || s[1..][i].sk != s[1..][j].sk {
      assert s[1..][i] == s[i + 1] && s[1..][j] == s[j + 1];
    }
  }

  /** Deleting the key of the first record of a table with distinct keys
      removes that record and nothing else. */
  lemma DeleteFirstKey(s: seq<DatabaseRecord>)
    requires KeysDistinct(s) && |s| > 0
    ensures DeleteKey(s, s[0].pk, s[0].sk) == s[1..]
  {
    forall x | x in s[1..] ensures x.pk != s[0].pk || x.sk != s[0].sk {
      var k :| 0 <= k < |s[1..]| && s[1..][k] == x;
      assert s[k + 1] == x;
    }
    DeleteAbsentKey(s[1..], s[0].pk, s[0].sk);
  }

  /** In a table with distinct keys, deleting the key of a stored record removes
      exactly that record. */
  lemma {:induction false} DeleteStoredKey(s: seq<DatabaseRecord>, r: DatabaseRecord)
    requires KeysDistinct(s) && r in s
    ensures multiset(DeleteKey(s, r.pk, r.sk)) == multiset(s) - multiset{r}
    ensures |DeleteKey(s, r.pk, r.sk)| == |s| - 1
    decreases |s|
  {
    assert s == [s[0]] + s[1..];
    if s[0] == r {
      DeleteFirstKey(s);
    } else {
      var k :| 0 <= k < |s| && s[k] == r;
      assert s[0].pk != r.pk || s[0].sk != r.sk;
      assert s[1..][k - 1] == r;
      KeysDistinctTail(s);
      DeleteStoredKey(s[1..], r);
      var tail := DeleteKey(s[1..], r.pk, r.sk);
      assert DeleteKey(s, r.pk, r.sk) == [s[0]] + tail;
      assert multiset(s) == multiset{s[0]} + multiset(s[1..]);
      assert multiset([s[0]] + tail) == multiset{s[0]} + multiset(tail);
    }
  }

  /** A delete keeps the keys of a table distinct. */
  lemma {:induction false} DeleteKeepsKeysDistinct(s: seq<DatabaseRecord>, pk: string, sk: int)
    requires KeysDistinct(s)
    ensures KeysDistinct(DeleteKey(s, pk, sk))
    decreases |s|
  {
    if |s| > 0 {
      var tail := DeleteKey(s[1..], pk, sk);
      DeleteKeepsKeysDistinct(s[1..], pk, sk);
      DeleteKeyMembers(s[1..], pk, sk);
      if s[0].pk != pk || s[0].sk != sk {
        var r := [s[0]] + tail;
        forall i, j | 0 <= i < j < |r| ensures r[i].pk != r[j].pk || r[i].sk != r[j].sk {
          if i == 0 {
            assert r[j] in tail;
            var k :| 0 <= k < |s[1..]| && s[1..][k] == r[j];
            assert s[k + 1] == r[j];
          } else {
            assert r[i] == tail[i - 1] && r[j] == tail[j - 1];
          }
        }
      }
    }
  }

  /** A delete keeps the sort keys of a table distinct. */
  lemma {:induction false} DeleteKeepsSortKeysDistinct(s: seq<DatabaseRecord>, pk: string, sk: int)
    requires SortKeysDistinct(s)
    ensures SortKeysDistinct(DeleteKey(s, pk, sk))
    decreases |s|
  {
    if |s| > 0 {
      var tail := DeleteKey(s[1..], pk, sk);
      DeleteKeepsSortKeysDistinct(s[1..], pk, sk);
      DeleteKeyMembers(s[1..], pk, sk);
      if s[0].pk != pk || s[0].sk != sk {
        var r := [s[0]] + tail;
        forall i, j | 0 <= i < j < |r| ensures r[i].sk != r[j].sk {
          if i == 0 {
            assert r[j] in tail;
            var k :| 0 <= k < |s[1..]| && s[1..][k] == r[j];
            assert s[k + 1] == r[j];
          } else {
            assert r[i] == tail[i - 1] && r[j] == tail[j - 1];
          }
        }
      }
    }
  }

  // ---------------------------------------------------------------------------
  // Take-next on the scanned items
  // ---------------------------------------------------------------------------

  /** The record served and the table left behind. */
  datatype Taken = Taken(record: DatabaseRecord, rest: seq<DatabaseRecord>)

  /** What `getAndDeleteLastRecord` does to a table whose scan returned `s`
      when neither command fails: sort, take element 0, delete its key. */
  function Take(s: seq<DatabaseRecord>): Result<Taken, StoreError> {
    if |s| == 0 then Err(NoItemsToRetrieve)
    else
      var record := SortBySk(s)[0];
      Ok(Taken(record, DeleteKey(s, record.pk, record.sk)))
  }

  /** Take-next fails exactly on an empty table and otherwise serves a stored
      record with the smallest sort key, the first such in scan order. */
  lemma TakeServesMinimum(s: seq<DatabaseRecord>)
    ensures Take(s).Err? <==> |s| == 0
    ensures Take(s).Err? ==> Take(s).error == NoItemsToRetrieve
    ensures Take(s).Ok? ==> Take(s).value.record == s[FirstMinIndex(s)]
    ensures Take(s).Ok? ==> Take(s).value.record in s
    ensures Take(s).Ok? ==> forall x | x in s :: Take(s).value.record.sk <= x.sk
  {
    if |s| > 0 {
      SortHead(s);
    }
  }

  /** The table left behind is the old one without the served record, and
      its keys stay distinct. */
  lemma TakeRemovesServed(s: seq<DatabaseRecord>)
    requires KeysDistinct(s) && Take(s).Ok?
    ensures multiset(Take(s).value.rest) == multiset(s) - multiset{Take(s).value.record}
    ensures |Take(s).value.rest| == |s| - 1
    ensures KeysDistinct(Take(s).value.rest)
  {
    var t := Take(s).value;
    TakeServesMinimum(s);
    DeleteStoredKey(s, t.record);
    DeleteKeepsKeysDistinct(s, t.record.pk, t.record.sk);
  }

  /** Every record other than the served one stays stored, unaltered, and
      nothing else is stored. */
  lemma TakeKeepsOthers(s: seq<DatabaseRecord>)
    requires KeysDistinct(s) && Take(s).Ok?
    ensures forall x :: x in Take(s).value.rest <==> x in s && x != Take(s).value.record
  {
    var t := Take(s).value;
    TakeServesMinimum(s);
    DeleteKeyMembers(s, t.record.pk, t.record.sk);
    forall x | x in s && x != t.record ensures x.pk != t.record.pk || x.sk != t.record.sk {
      var i :| 0 <= i < |s| && s[i] == x;
      var j :| 0 <= j < |s| && s[j] == t.record;
      assert i != j;
    }
  }

  // ---------------------------------------------------------------------------
  // Successive calls
  // ---------------------------------------------------------------------------

  /** The records served by a run of successive calls, and the table left. */
  datatype Batch = Batch(served: seq<DatabaseRecord>, rest: seq<DatabaseRecord>)

  /** `n` successive take-next calls on a table holding `s`, or the error of
      the first call that throws. */
  function TakeMany(s: seq<DatabaseRecord>, n: nat): Result<Batch, StoreError>
    decreases n
  {
    if n == 0 then Ok(Batch([], s))
    else
      match Take(s)
      case Err(e) => Err(e)
      case Ok(t) =>
        match TakeMany(t.rest, n - 1)
        case Err(e) => Err(e)
        case Ok(b) => Ok(Batch([t.record] + b.served, b.rest))
  }

  /** What a run of calls that served `b.served` and left `b.rest` promises
      about a table that held `s`: every record stored is either served or
      still stored, keys stay distinct, the served ones come in ascending
      order of sort key and none is larger than a record still stored. */
  ghost predicate ServedInOrder(s: seq<DatabaseRecord>, b: Batch) {
    && multiset(b.served) + multiset(b.rest) == multiset(s)
    && KeysDistinct(b.rest)
    && Ascending(b.served)
    && (forall x, y | x in b.served && y in b.rest :: x.sk <= y.sk)
  }

  /** The facts about one successful call that the lemmas below consume: `r`
      was stored, had the smallest sort key, and `rest` is the table without it. */
  ghost predicate ServesMinimum(s: seq<DatabaseRecord>, r: DatabaseRecord, rest: seq<DatabaseRecord>) {
    && r in s
    && multiset(rest) == multiset(s) - multiset{r}
    && (forall x | x in s :: r.sk <= x.sk)
  }

  /** The facts of `TakeServesMinimum` and `TakeRemovesServed` that a run of
      calls needs, in one place. */
  lemma TakeOnce(s: seq<DatabaseRecord>)
    requires KeysDistinct(s) && |s| > 0
    ensures Take(s).Ok?
    ensures ServesMinimum(s, Take(s).value.record, Take(s).value.rest)
    ensures KeysDistinct(Take(s).value.rest)
    ensures |Take(s).value.rest| == |s| - 1
  {
    TakeServesMinimum(s);
    TakeRemovesServed(s);
  }

  /** A call on a non-empty table succeeds and leaves one record fewer, keys
      still distinct. */
  lemma TakeShrinks(s: seq<DatabaseRecord>)
    requires KeysDistinct(s) && |s| > 0
    ensures Take(s).Ok?
    ensures KeysDistinct(Take(s).value.rest)
    ensures |Take(s).value.rest| == |s| - 1
  {
    TakeRemovesServed(s);
  }

  lemma ConsKeepsRecords(s: seq<DatabaseRecord>, r: DatabaseRecord, rest: seq<DatabaseRecord>, b: Batch)
    requires ServesMinimum(s, r, rest) && ServedInOrder(rest, b)
    ensures multiset([r] + b.served) + multiset(b.rest) == multiset(s)
  {
    assert multiset(s) == multiset{r} + multiset(rest);
    assert multiset([r] + b.served) == multiset{r} + multiset(b.served);
  }

  /** A record no larger than any of an ascending sequence can go in front of it. */
  lemma AscendingFront(r: DatabaseRecord, t: seq<DatabaseRecord>)
    requires Ascending(t) && forall x | x in t :: r.sk <= x.sk
    ensures Ascending([r] + t)
  {
    var u := [r] + t;
    forall i, j | 0 <= i < j < |u| ensures u[i].sk <= u[j].sk {
      if i == 0 {
        assert u[j] in t;
      } else {
        assert u[i] == t[i - 1] && u[j] == t[j - 1];
      }
    }
  }

  /** A record smaller than all of a strictly ascending sequence can go in front of it. */
  lemma StrictlyAscendingFront(r: DatabaseRecord, t: seq<DatabaseRecord>)
    requires StrictlyAscending(t) && forall x | x in t :: r.sk < x.sk
    ensures StrictlyAscending([r] + t)
  {
    var u := [r] + t;
    forall i, j | 0 <= i < j < |u| ensures u[i].sk < u[j].sk {
      if i == 0 {
        assert u[j] in t;
      } else {
        assert u[i] == t[i - 1] && u[j] == t[j - 1];
      }
    }
  }

  lemma ConsAscending(s: seq<DatabaseRecord>, r: DatabaseRecord, rest: seq<DatabaseRecord>, b: Batch)
    requires ServesMinimum(s, r, rest) && ServedInOrder(rest, b)
    ensures Ascending([r] + b.served)
  {
    forall x | x in b.served ensures r.sk <= x.sk {
      assert x in multiset(b.served);
      assert x in multiset(rest);
      assert x in multiset(s);
    }
    AscendingFront(r, b.served);
  }

  lemma ConsBeforeRest(s: seq<DatabaseRecord>, r: DatabaseRecord, rest: seq<DatabaseRecord>, b: Batch)
    requires ServesMinimum(s, r, rest) && ServedInOrder(rest, b)
    ensures forall x, y | x in [r] + b.served && y in b.rest :: x.sk <= y.sk
  {
    forall y | y in b.rest ensures r.sk <= y.sk {
      assert y in multiset(b.rest);
      assert y in multiset(rest);
      assert y in multiset(s);
    }
  }

  /** One more call in front of a run that served the rest in order. */
  lemma TakeManyCons(s: seq<DatabaseRecord>, n: nat, t: Taken, b: Batch)
    requires KeysDistinct(s) && 0 < n <= |s|
    requires Take(s) == Ok(t) && TakeMany(t.rest, n - 1) == Ok(b)
    requires |b.served| == n - 1 && ServedInOrder(t.rest, b)
    ensures TakeMany(s, n) == Ok(Batch([t.record] + b.served, b.rest))
    ensures ServedInOrder(s, Batch([t.record] + b.served, b.rest))
  {
    TakeOnce(s);
    ConsKeepsRecords(s, t.record, t.rest, b);
    ConsAscending(s, t.record, t.rest, b);
    ConsBeforeRest(s, t.record, t.rest, b);
  }

  /** One more call in front of a run that served the rest in order. */
  lemma ServedInOrderStep(s: seq<DatabaseRecord>, n: nat)
    requires KeysDistinct(s) && 0 < n <= |s|
    requires Take(s).Ok?
    requires TakeMany(Take(s).value.rest, n - 1).Ok?
    requires |TakeMany(Take(s).value.rest, n - 1).value.served| == n - 1
    requires ServedInOrder(Take(s).value.rest, TakeMany(Take(s).value.rest, n - 1).value)
    ensures TakeMany(s, n).Ok?
    ensures |TakeMany(s, n).value.served| == n
    ensures ServedInOrder(s, TakeMany(s, n).value)
  {
    TakeManyCons(s, n, Take(s).value, TakeMany(Take(s).value.rest, n - 1).value);
  }

  /** Up to `|s|` successive calls all succeed, and they serve the table in
      order (`ServedInOrder`). */
  lemma {:induction false} TakeManyServesInOrder(s: seq<DatabaseRecord>, n: nat)
    requires KeysDistinct(s) && n <= |s|
    ensures TakeMany(s, n).Ok?
    ensures |TakeMany(s, n).value.served| == n
    ensures ServedInOrder(s, TakeMany(s, n).value)
    decreases n
  {
    if n > 0 {
      TakeShrinks(s);
      TakeManyServesInOrder(Take(s).value.rest, n - 1);
      ServedInOrderStep(s, n);
    }
  }

  /** No record served after `t.record` shares its sort key, when sort keys are
      distinct. */
  lemma LaterServedLarger(s: seq<DatabaseRecord>, t: Taken, b: Batch)
    requires KeysDistinct(s) && SortKeysDistinct(s) && Take(s) == Ok(t) && ServedInOrder(t.rest, b)
    ensures forall x | x in b.served :: t.record.sk < x.sk
  {
    TakeServesMinimum(s);
    TakeKeepsOthers(s);
    forall x | x in b.served ensures t.record.sk < x.sk {
      assert x in multiset(b.served);
      assert x in multiset(t.rest);
      assert x in t.rest;
      var i :| 0 <= i < |s| && s[i] == x;
      var j :| 0 <= j < |s| && s[j] == t.record;
      assert i != j;
    }
  }

  lemma StrictlyAscendingCons(s: seq<DatabaseRecord>, t: Taken, b: Batch)
    requires KeysDistinct(s) && SortKeysDistinct(s) && Take(s) == Ok(t) && ServedInOrder(t.rest, b)
    requires StrictlyAscending(b.served)
    ensures StrictlyAscending([t.record] + b.served)
  {
    LaterServedLarger(s, t, b);
    StrictlyAscendingFront(t.record, b.served);
  }

  /** One more call in front of a run that served strictly ascending keys. */
  lemma StrictlyAscendingStep(s: seq<DatabaseRecord>, n: nat)
    requires KeysDistinct(s) && SortKeysDistinct(s) && 0 < n <= |s|
    requires Take(s).Ok?
    requires TakeMany(Take(s).value.rest, n - 1).Ok?
    requires StrictlyAscending(TakeMany(Take(s).value.rest, n - 1).value.served)
    ensures TakeMany(s, n).Ok?
    ensures StrictlyAscending(TakeMany(s, n).value.served)
  {
    TakeShrinks(s);
    var t := Take(s).value;
    TakeManyServesInOrder(t.rest, n - 1);
    var b := TakeMany(t.rest, n - 1).value;
    TakeManyCons(s, n, t, b);
    StrictlyAscendingCons(s, t, b);
  }

  /** With distinct sort keys, successive calls serve strictly ascending keys. */
  lemma {:induction false} TakeManyStrictlyAscending(s: seq<DatabaseRecord>, n: nat)
    requires KeysDistinct(s) && SortKeysDistinct(s) && n <= |s|
    ensures TakeMany(s, n).Ok?
    ensures StrictlyAscending(TakeMany(s, n).value.served)
    decreases n
  {
    if n > 0 {
      TakeShrinks(s);
      var t := Take(s).value;
      DeleteKeepsSortKeysDistinct(s, t.record.pk, t.record.sk);
      TakeManyStrictlyAscending(t.rest, n - 1);
      StrictlyAscendingStep(s, n);
    }
  }

  /** One call more than there are records throws `no items to retrieve`. */
  lemma {:induction false} TakeManyOneTooMany(s: seq<DatabaseRecord>)
    requires KeysDistinct(s)
    ensures TakeMany(s, |s| + 1) == Err(NoItemsToRetrieve)
    decreases |s|
  {
    if |s| > 0 {
      TakeRemovesServed(s);
      var t := Take(s).value;
      TakeManyOneTooMany(t.rest);
      assert |t.rest| + 1 == |s|;
    }
  }

  /** N records seeded, N calls: each record is served once, in ascending
      order of sort key, the table is left empty, and call N + 1 throws. */
  lemma DrainTable(s: seq<DatabaseRecord>)
    requires KeysDistinct(s)
    ensures TakeMany(s, |s|).Ok?
    ensures TakeMany(s, |s|).value.rest == []
    ensures multiset(TakeMany(s, |s|).value.served) == multiset(s)
    ensures Ascending(TakeMany(s, |s|).value.served)
    ensures SortKeysDistinct(s) ==> StrictlyAscending(TakeMany(s, |s|).value.served)
    ensures TakeMany(s, |s| + 1) == Err(NoItemsToRetrieve)
  {
    TakeManyServesInOrder(s, |s|);
    var b := TakeMany(s, |s|).value;
    assert multiset(b.served) + multiset(b.rest) == multiset(s);
    assert |multiset(b.served)| == |s| == |multiset(s)|;
    assert |multiset(b.rest)| == 0;
    if SortKeysDistinct(s) {
      TakeManyStrictlyAscending(s, |s|);
    }
    TakeManyOneTooMany(s);
  }

  /** The sort of the seeded records 3, 1, 2 and of what is left after the first call. */
  lemma SeededSorts(a: DatabaseRecord, b: DatabaseRecord, c: DatabaseRecord)
    requires a.sk == 3 && b.sk == 1 && c.sk == 2
    ensures SortBySk([a, b, c]) == [b, c, a]
    ensures SortBySk([a, c]) == [c, a]
  {
    assert [a, b, c][..2] == [a, b] && [a, b][..1] == [a] && [a, c][..1] == [a];
    assert SortBySk([a]) == [a];
    assert [a][..0] == [];
    assert InsertBySk([a], b) == [b, a];
    assert InsertBySk([a], c) == [c, a];
    assert [b, a][..1] == [b];
    assert InsertBySk([b, a], c) == [b, c, a];
  }

  /** The three deletes of the seeded scenario. */
  lemma SeededDeletes(a: DatabaseRecord, b: DatabaseRecord, c: DatabaseRecord)
    requires a.sk == 3 && b.sk == 1 && c.sk == 2 && a.pk == b.pk == c.pk
    ensures DeleteKey([a, b, c], b.pk, 1) == [a, c]
    ensures DeleteKey([a, c], c.pk, 2) == [a]
    ensures DeleteKey([a], a.pk, 3) == []
  {
    assert [a, b, c][1..] == [b, c] && [b, c][1..] == [c] && [c][1..] == [] && [a, c][1..] == [c] && [a][1..] == [];
    assert DeleteKey([c], b.pk, 1) == [c];
    assert DeleteKey([b, c], b.pk, 1) == [c];
    assert DeleteKey([c], c.pk, 2) == [];
  }

  /** Records seeded with sort keys 3, 1, 2 are served as 1, 2, 3, and a
      fourth call throws. */
  lemma SeededOutOfOrder(pk: string, r1: Json, r2: Json, r3: Json)
    ensures var a := DatabaseRecord(pk, 3, 200, r3);
            var b := DatabaseRecord(pk, 1, 200, r1);
            var c := DatabaseRecord(pk, 2, 200, r2);
            && TakeMany([a, b, c], 3) == Ok(Batch([b, c, a], []))
            && TakeMany([a, b, c], 4) == Err(NoItemsToRetrieve)
  {
    var a := DatabaseRecord(pk, 3, 200, r3);
    var b := DatabaseRecord(pk, 1, 200, r1);
    var c := DatabaseRecord(pk, 2, 200, r2);
    SeededSorts(a, b, c);
    SeededDeletes(a, b, c);
    assert Take([a, b, c]) == Ok(Taken(b, [a, c]));
    assert Take([a, c]) == Ok(Taken(c, [a]));
    assert Take([a]) == Ok(Taken(a, []));
    assert TakeMany([a], 1) == Ok(Batch([a], []));
    assert [c] + [a] == [c, a] && [b] + [c, a] == [b, c, a];
    assert TakeMany([a, c], 2) == Ok(Batch([c, a], []));
    assert TakeMany([a, b, c], 3) == Ok(Batch([b, c, a], []));
    assert TakeMany([a], 2) == Err(NoItemsToRetrieve);
    assert TakeMany([a, c], 3) == Err(NoItemsToRetrieve);
  }

  // ---------------------------------------------------------------------------
  // The store
  // ---------------------------------------------------------------------------

  /** What one call of `getAndDeleteLastRecord(tableName)` returns, and the
      tables afterwards. */
  datatype Outcome = Outcome(result: Result<DatabaseRecord, StoreError>, tables: map<string, seq<DatabaseRecord>>)

  /** One call of `getAndDeleteLastRecord(tableName)` on the tables `tables`.
      A scan of a table that does not exist fails like any other scan fault. */
  function TakeNext(tables: map<string, seq<DatabaseRecord>>, tableName: string, faults: Faults): Outcome {
    if faults.scanFails || tableName !in tables then Outcome(Err(ScanFailed), tables)
    else
      match Take(tables[tableName])
      case Err(e) => Outcome(Err(e), tables)
      case Ok(t) =>
        if faults.deleteFails then Outcome(Err(DeleteFailed), tables)
        else Outcome(Ok(t.record), tables[tableName := t.rest])
  }

  /** A failed call changes nothing; a successful one serves the minimum of the
      named table, removes exactly that record and leaves every other table
      alone. */
  lemma TakeNextEffect(tables: map<string, seq<DatabaseRecord>>, tableName: string, faults: Faults)
    requires tableName in tables ==> KeysDistinct(tables[tableName])
    ensures TakeNext(tables, tableName, faults).result.Err? ==> TakeNext(tables, tableName, faults).tables == tables
    ensures TakeNext(tables, tableName, faults).result.Ok? <==>
              !faults.scanFails && !faults.deleteFails && tableName in tables && |tables[tableName]| > 0
    ensures TakeNext(tables, tableName, faults).result.Ok? ==>
              var r := TakeNext(tables, tableName, faults).result.value;
              var after := TakeNext(tables, tableName, faults).tables;
              && after.Keys == tables.Keys
              && (forall name | name in tables && name != tableName :: after[name] == tables[name])
              && r in tables[tableName]
              && (forall x | x in tables[tableName] :: r.sk <= x.sk)
              && multiset(after[tableName]) == multiset(tables[tableName]) - multiset{r}
  {
    if tableName in tables {
      TakeServesMinimum(tables[tableName]);
      if |tables[tableName]| > 0 {
        TakeRemovesServed(tables[tableName]);
      }
    }
  }

  /** The scan and the delete are separate commands: when the delete fails, the
      record stays stored and the next call without faults serves it again. */
  lemma DeleteFailureServesAgain(tables: map<string, seq<DatabaseRecord>>, tableName: string)
    requires tableName in tables && |tables[tableName]| > 0
    ensures TakeNext(tables, tableName, Faults(false, true)) == Outcome(Err(DeleteFailed), tables)
    ensures TakeNext(tables, tableName, Faults(false, false)).result ==
              Ok(tables[tableName][FirstMinIndex(tables[tableName])])
  {
    TakeServesMinimum(tables[tableName]);
  }

  /** The records served by successive calls on one table, and the tables left. */
  datatype Calls = Calls(served: seq<DatabaseRecord>, tables: map<string, seq<DatabaseRecord>>)

  /** `n` successive calls without faults on the table named `tableName`, or
      the error of the first call that throws. */
  function CallMany(tables: map<string, seq<DatabaseRecord>>, tableName: string, n: nat): Result<Calls, StoreError>
    decreases n
  {
    if n == 0 then Ok(Calls([], tables))
    else
      var o := TakeNext(tables, tableName, Faults(false, false));
      match o.result
      case Err(e) => Err(e)
      case Ok(r) =>
        match CallMany(o.tables, tableName, n - 1)
        case Err(e) => Err(e)
        case Ok(c) => Ok(Calls([r] + c.served, c.tables))
  }

  /** Successive calls on an existing table are successive take-next steps on
      its scanned items: they fail exactly when `TakeMany` does, with the same
      error, and otherwise serve `TakeMany`'s records and store its remainder
      in place of that table, leaving every other table alone. So the facts
      proved about `TakeMany` hold of the calls. */
  lemma {:induction false} CallsAreTakeMany(tables: map<string, seq<DatabaseRecord>>, tableName: string, n: nat)
    requires tableName in tables
    ensures CallMany(tables, tableName, n).Ok? <==> TakeMany(tables[tableName], n).Ok?
    ensures CallMany(tables, tableName, n).Err? ==>
              CallMany(tables, tableName, n).error == TakeMany(tables[tableName], n).error
    ensures CallMany(tables, tableName, n).Ok? ==>
              CallMany(tables, tableName, n).value ==
              Calls(TakeMany(tables[tableName], n).value.served,
                    tables[tableName := TakeMany(tables[tableName], n).value.rest])
    decreases n
  {
    if n > 0 {
      match Take(tables[tableName])
      case Err(e) =>
      case Ok(t) =>
        var after := tables[tableName := t.rest];
        CallsAreTakeMany(after, tableName, n - 1);
        assert after[tableName] == t.rest;
        match TakeMany(t.rest, n - 1)
        case Err(e) =>
        case Ok(b) =>
          assert after[tableName := b.rest] == tables[tableName := b.rest];
    }
  }

  /** The DynamoDB client: the tables it reaches, each in the order a scan
      returns its items. The scan is taken to return the whole table. */
  class Database {
    var tables: map<string, seq<DatabaseRecord>>

    /** The key schema `(pk, sk)` makes keys unique within a table. */
    ghost predicate Valid()
      reads this
    {
      forall name | name in tables :: KeysDistinct(tables[name])
    }

    constructor (seeded: map<string, seq<DatabaseRecord>>)
      requires forall name | name in seeded :: KeysDistinct(seeded[name])
      ensures Valid() && tables == seeded
    {
      tables := seeded;
    }

    /** `getAndDeleteLastRecord(tableName)`: scan, sort the items in place,
        delete the key of element 0 and return it; throw when the scan finds
        nothing or either command fails. */
    method GetAndDeleteLastRecord(tableName: string, faults: Faults) returns (r: Result<DatabaseRecord, StoreError>)
      requires Valid()
      modifies this
      ensures Valid()
      ensures r == TakeNext(old(tables), tableName, faults).result
      ensures tables == TakeNext(old(tables), tableName, faults).tables
    {
      if faults.scanFails || tableName !in tables {
        return Err(ScanFailed);
      }
      var scanned := tables[tableName];
      if |scanned| == 0 {
        return Err(NoItemsToRetrieve);
      }
      var items := new DatabaseRecord[|scanned|](i requires 0 <= i < |scanned| => scanned[i]);
      assert items[..] == scanned;
      SortInPlace(items);
      var lastItem := items[0];
      if faults.deleteFails {
        return Err(DeleteFailed);
      }
      TakeRemovesServed(scanned);
      tables := tables[tableName := DeleteKey(scanned, lastItem.pk, lastItem.sk)];
      r := Ok(lastItem);
    }
  }
}
