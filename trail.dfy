/**
 * Generic facts about an append-only audit table: entries receive increasing ids
 * and a timestamp from a logical clock when they are created, rows referring to a
 * deleted user are removed by the cascade, and the "newest first" query takes the
 * most recent entries by timestamp.
 */
module Trail {
  import opened Models

  function Min(a: nat, b: nat): nat {
    if a <= b then a else b
  }

  /**
   * The table in creation order: ids strictly increase, timestamps never decrease,
   * every id is below the next one to hand out and every timestamp is at most the
   * clock's current reading.
   */
  ghost predicate Chronological<T>(log: seq<T>, id: T -> nat, stamp: T -> nat, nextId: nat, clock: nat) {
    && (forall i :: 0 <= i < |log| ==> id(log[i]) < nextId && stamp(log[i]) <= clock)
    && (forall i, j :: 0 <= i < j < |log| ==> id(log[i]) < id(log[j]) && stamp(log[i]) <= stamp(log[j]))
  }

  /** Appending an entry with a fresh id, stamped with the current clock, keeps the order. */
  lemma AppendChronological<T>(log: seq<T>, e: T, id: T -> nat, stamp: T -> nat, nextId: nat, clock: nat)
    requires Chronological(log, id, stamp, nextId, clock)
    requires id(e) == nextId && stamp(e) == clock
    ensures Chronological(log + [e], id, stamp, nextId + 1, clock)
  {
  }

  /** The rows of `log` that do not refer to user `u`, in their original order. */
  function Without<T(!new)>(log: seq<T>, actor: T -> Option<UserId>, u: UserId): (r: seq<T>)
    ensures |r| <= |log|
  {
    if log == [] then []
    else if actor(log[0]) == Some(u) then Without(log[1..], actor, u)
    else [log[0]] + Without(log[1..], actor, u)
  }

  /** A row is kept exactly when it is a row of the table that does not refer to `u`. */
  lemma {:induction false} WithoutMembers<T(!new)>(log: seq<T>, actor: T -> Option<UserId>, u: UserId)
    ensures forall e :: e in Without(log, actor, u) <==> e in log && actor(e) != Some(u)
  {
    if log != [] {
      WithoutMembers(log[1..], actor, u);
      assert log == [log[0]] + log[1..];
    }
  }

  /** Removing the rows of one user leaves the remaining rows in creation order. */
  lemma {:induction false} WithoutChronological<T(!new)>(
    log: seq<T>, actor: T -> Option<UserId>, u: UserId,
    id: T -> nat, stamp: T -> nat, nextId: nat, clock: nat)
    requires Chronological(log, id, stamp, nextId, clock)
    ensures Chronological(Without(log, actor, u), id, stamp, nextId, clock)
  {
    if log != [] {
      ChronologicalTail(log, id, stamp, nextId, clock);
      WithoutChronological(log[1..], actor, u, id, stamp, nextId, clock);
      WithoutMembers(log[1..], actor, u);
      if actor(log[0]) != Some(u) {
        ChronologicalCons(log[0], Without(log[1..], actor, u), id, stamp, nextId, clock);
      }
    }
  }

  /**
   * Dropping the first row keeps the order, and the first row is older than every
   * row after it.
   */
  lemma ChronologicalTail<T>(log: seq<T>, id: T -> nat, stamp: T -> nat, nextId: nat, clock: nat)
    requires log != [] && Chronological(log, id, stamp, nextId, clock)
    ensures Chronological(log[1..], id, stamp, nextId, clock)
    ensures forall e :: e in log[1..] ==> id(log[0]) < id(e) && stamp(log[0]) <= stamp(e)
  {
    var tail := log[1..];
    assert forall i :: 0 <= i < |tail| ==> tail[i] == log[i + 1];
  }

  /** A row older than every row of an ordered table can be put in front of it. */
  lemma ChronologicalCons<T>(x: T, rest: seq<T>, id: T -> nat, stamp: T -> nat, nextId: nat, clock: nat)
    requires Chronological(rest, id, stamp, nextId, clock)
    requires id(x) < nextId && stamp(x) <= clock
    requires forall e :: e in rest ==> id(x) < id(e) && stamp(x) <= stamp(e)
    ensures Chronological([x] + rest, id, stamp, nextId, clock)
  {
    var r := [x] + rest;
    assert forall i :: 0 < i < |r| ==> r[i] == rest[i - 1] && r[i] in rest;
  }

  function Reverse<T>(s: seq<T>): (r: seq<T>)
    ensures |r| == |s|
    ensures forall k :: 0 <= k < |s| ==> r[k] == s[|s| - 1 - k]
  {
    if s == [] then [] else Reverse(s[1..]) + [s[0]]
  }

  lemma {:induction false} ReverseMultiset<T>(s: seq<T>)
    ensures multiset(Reverse(s)) == multiset(s)
  {
    if s != [] {
      ReverseMultiset(s[1..]);
      assert s == [s[0]] + s[1..];
    }
  }

  /**
   * The result of ordering `log` by descending timestamp and keeping its first `n`
   * rows. Entries are appended in timestamp order, so this is the reversed tail of
   * the table; entries with equal timestamps may come back in any order, and
   * `IsNewestFirst` below does not fix one.
   */
  function Recent<T>(log: seq<T>, n: nat): seq<T> {
    Reverse(log[|log| - Min(n, |log|)..])
  }

  /**
   * `r` is a valid answer to "the newest `n` rows of `log` by descending timestamp":
   * it has `min(n, |log|)` rows taken from `log` without repetition, its timestamps
   * never increase, and every row of `log` it leaves out is no newer than any row
   * it keeps.
   */
  ghost predicate IsNewestFirst<T>(log: seq<T>, r: seq<T>, n: nat, stamp: T -> nat) {
    && |r| == Min(n, |log|)
    && multiset(r) <= multiset(log)
    && (forall i, j :: 0 <= i < j < |r| ==> stamp(r[i]) >= stamp(r[j]))
    && (forall i, k :: 0 <= i < |log| && 0 <= k < |r| && log[i] !in r ==> stamp(log[i]) <= stamp(r[k]))
  }

  /** On a table whose timestamps never decrease, `Recent` answers the newest-first query. */
  lemma RecentIsNewestFirst<T>(log: seq<T>, n: nat, stamp: T -> nat)
    requires forall i, j :: 0 <= i < j < |log| ==> stamp(log[i]) <= stamp(log[j])
    ensures IsNewestFirst(log, Recent(log, n), n, stamp)
  {
    RecentRows(log, n);
    RecentMultiset(log, n);
    var r := Recent(log, n);
    forall i, j | 0 <= i < j < |r|
      ensures stamp(r[i]) >= stamp(r[j])
    {
      assert r[i] == log[|log| - 1 - i] && r[j] == log[|log| - 1 - j];
    }
    forall i, k | 0 <= i < |log| && 0 <= k < |r| && log[i] !in r
      ensures stamp(log[i]) <= stamp(r[k])
    {
      assert r[k] == log[|log| - 1 - k];
    }
  }

  /** Row `k` of `Recent(log, n)` is the `k`-th row of `log` counted from its end. */
  lemma RecentRows<T>(log: seq<T>, n: nat)
    ensures |Recent(log, n)| == Min(n, |log|)
    ensures forall k :: 0 <= k < |Recent(log, n)| ==> Recent(log, n)[k] == log[|log| - 1 - k]
    ensures forall i :: |log| - Min(n, |log|) <= i < |log| ==> log[i] in Recent(log, n)
  {
    var tail := log[|log| - Min(n, |log|)..];
    var r := Recent(log, n);
    assert forall k :: 0 <= k < |tail| ==> tail[k] == log[|log| - |tail| + k];
    forall i | |log| - |r| <= i < |log|
      ensures log[i] in r
    {
      assert r[|log| - 1 - i] == log[i];
    }
  }

  lemma RecentMultiset<T>(log: seq<T>, n: nat)
    ensures multiset(Recent(log, n)) <= multiset(log)
  {
    var cut := |log| - Min(n, |log|);
    var tail := log[cut..];
    ReverseMultiset(tail);
    assert log == log[..cut] + tail;
    assert multiset(log) == multiset(log[..cut]) + multiset(tail);
  }

  /** Every row of a newest-first answer is a row of the table. */
  lemma NewestFirstMembers<T>(log: seq<T>, r: seq<T>, n: nat, stamp: T -> nat)
    requires IsNewestFirst(log, r, n, stamp)
    ensures forall e :: e in r ==> e in log
  {
    forall e | e in r
      ensures e in log
    {
      assert e in multiset(r);
    }
  }
}
