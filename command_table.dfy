/*
 * The command table shared by both registries (source/cli.c and src/cli.c):
 * an array of `{name, function}` records whose first `count` entries are kept
 * in strict `strcmp` order, found by binary search and grown by shifting the
 * tail right with `memmove`.  source/cli.c keeps the order ascending; src/cli.c
 * compares with its arguments swapped and so keeps it descending.  Each
 * predicate and lemma below takes the table's `Order`.
 */
module CommandTable {
  import opened CStrings

  /** A `CliCommand` record: the command's name and what runs it. */
  datatype Entry<H> = Entry(name: string, handler: H)

  /** The direction of a table's `strcmp` order. */
  datatype Order = Ascending | Descending

  /** `x` belongs before `y` in a table of the given order. */
  predicate Precedes(x: string, y: string, order: Order) {
    if order == Descending then Strcmp(x, y) > 0 else Strcmp(x, y) < 0
  }

  /** The order is strict: no name precedes a name that precedes it. */
  lemma PrecedesAsymmetric(x: string, y: string, order: Order)
    ensures !(Precedes(x, y, order) && Precedes(y, x, order))
  {
    StrcmpAntisymmetric(x, y);
  }

  /** The order is total on distinct names. */
  lemma PrecedesTotal(x: string, y: string, order: Order)
    requires x != y
    ensures Precedes(x, y, order) || Precedes(y, x, order)
  {
    StrcmpAntisymmetric(x, y);
  }

  lemma PrecedesTransitive(x: string, y: string, z: string, order: Order)
    requires Precedes(x, y, order) && Precedes(y, z, order)
    ensures Precedes(x, z, order)
  {
    if order == Descending {
      StrcmpAntisymmetric(x, y);
      StrcmpAntisymmetric(y, z);
      StrcmpAntisymmetric(x, z);
      StrcmpTransitive(z, y, x);
    } else {
      StrcmpTransitive(x, y, z);
    }
  }

  /** Every earlier entry precedes every later one: sorted, and no name twice. */
  ghost predicate Sorted<H>(s: seq<Entry<H>>, order: Order) {
    forall i, j | 0 <= i < j < |s| :: Precedes(s[i].name, s[j].name, order)
  }

  ghost predicate Named<H>(s: seq<Entry<H>>, name: string) {
    exists i | 0 <= i < |s| :: s[i].name == name
  }

  /** A sorted table names each command once, so a name picks out a single entry. */
  lemma NamesUnique<H>(s: seq<Entry<H>>, i: nat, j: nat, order: Order)
    requires Sorted(s, order) && i < |s| && j < |s| && s[i].name == s[j].name
    ensures i == j
  {
    if i < j {
      PrecedesAsymmetric(s[i].name, s[j].name, order);
    } else if j < i {
      PrecedesAsymmetric(s[j].name, s[i].name, order);
    }
  }

  /** Position `i` splits the table into the entries before `name` and those after it. */
  ghost predicate InsertionPoint<H>(s: seq<Entry<H>>, name: string, i: nat, order: Order) {
    && i <= |s|
    && (forall j | 0 <= j < i :: Precedes(s[j].name, name, order))
    && (forall j | i <= j < |s| :: Precedes(name, s[j].name, order))
  }

  /** The number of leading entries that precede `name`. */
  function Rank<H>(s: seq<Entry<H>>, name: string, order: Order): (r: nat)
    ensures r <= |s|
  {
    if s == [] || !Precedes(s[0].name, name, order) then 0
    else 1 + Rank(s[1..], name, order)
  }

  /** `e` inserted at its rank. */
  function Added<H>(s: seq<Entry<H>>, e: Entry<H>, order: Order): (r: seq<Entry<H>>)
    ensures |r| == |s| + 1
  {
    var i := Rank(s, e.name, order);
    s[..i] + [e] + s[i..]
  }

  /** In a sorted table without `name`, the rank of `name` is where it belongs. */
  lemma {:induction false} RankIsInsertionPoint<H>(s: seq<Entry<H>>, name: string, order: Order)
    requires Sorted(s, order) && !Named(s, name)
    ensures InsertionPoint(s, name, Rank(s, name, order), order)
  {
    if s == [] {
    } else if Precedes(s[0].name, name, order) {
      assert !Named(s[1..], name) by {
        forall j | 0 <= j < |s[1..]| ensures s[1..][j].name != name {
          assert s[1..][j] == s[j + 1];
        }
      }
      RankIsInsertionPoint(s[1..], name, order);
      forall j | 0 <= j < |s| ensures j < Rank(s, name, order) ==> Precedes(s[j].name, name, order)
        ensures j >= Rank(s, name, order) ==> Precedes(name, s[j].name, order)
      {
        if j > 0 {
          assert s[j] == s[1..][j - 1];
        }
      }
    } else {
      assert s[0].name != name;
      PrecedesTotal(s[0].name, name, order);
      forall j | 0 < j < |s| ensures Precedes(name, s[j].name, order) {
        PrecedesTransitive(name, s[0].name, s[j].name, order);
      }
    }
  }

  /** An insertion point excludes the name, and there is only one: the rank. */
  lemma InsertionPointIsRank<H>(s: seq<Entry<H>>, name: string, i: nat, order: Order)
    requires Sorted(s, order) && InsertionPoint(s, name, i, order)
    ensures !Named(s, name) && i == Rank(s, name, order)
  {
    forall j | 0 <= j < |s| ensures s[j].name != name {
      PrecedesAsymmetric(s[j].name, name, order);
    }
    RankIsInsertionPoint(s, name, order);
    var r := Rank(s, name, order);
    if i < r {
      PrecedesAsymmetric(s[i].name, name, order);
    } else if r < i {
      PrecedesAsymmetric(s[r].name, name, order);
    }
  }

  /** Inserting an absent name at its rank keeps the table sorted. */
  lemma AddedSorted<H>(s: seq<Entry<H>>, e: Entry<H>, order: Order)
    requires Sorted(s, order) && !Named(s, e.name)
    ensures Sorted(Added(s, e, order), order)
    ensures forall x :: x in Added(s, e, order) <==> x in s || x == e
  {
    var i := Rank(s, e.name, order);
    RankIsInsertionPoint(s, e.name, order);
    var r := Added(s, e, order);
    forall a, b | 0 <= a < b < |r| ensures Precedes(r[a].name, r[b].name, order) {
      if b < i {
        assert r[a] == s[a] && r[b] == s[b];
      } else if b == i {
        assert r[a] == s[a] && r[b] == e;
      } else if a < i {
        assert r[a] == s[a] && r[b] == s[b - 1];
      } else if a == i {
        assert r[a] == e && r[b] == s[b - 1];
      } else {
        assert r[a] == s[a - 1] && r[b] == s[b - 1];
      }
    }
    assert s == s[..i] + s[i..];
  }

  /** Two sorted tables with the same entries and the same head hold the same entries after it. */
  lemma SameTails<H>(s: seq<Entry<H>>, t: seq<Entry<H>>, order: Order)
    requires Sorted(s, order) && Sorted(t, order)
    requires forall x :: x in s <==> x in t
    requires s != [] && t != [] && s[0] == t[0]
    ensures forall x :: x in s[1..] <==> x in t[1..]
  {
    forall x ensures x in s[1..] ==> x in t[1..] {
      if x in s[1..] {
        var k :| 0 <= k < |s[1..]| && s[1..][k] == x;
        assert s[k + 1] == x && x != t[0] && x in s;
        var m :| 0 <= m < |t| && t[m] == x;
        assert t[1..][m - 1] == x;
      }
    }
    forall x ensures x in t[1..] ==> x in s[1..] {
      if x in t[1..] {
        var k :| 0 <= k < |t[1..]| && t[1..][k] == x;
        assert t[k + 1] == x && x != s[0] && x in t;
        var m :| 0 <= m < |s| && s[m] == x;
        assert s[1..][m - 1] == x;
      }
    }
  }

  /** A sorted table is determined by the entries it holds. */
  lemma {:induction false} SortedDetermined<H>(s: seq<Entry<H>>, t: seq<Entry<H>>, order: Order)
    requires Sorted(s, order) && Sorted(t, order)
    requires forall x :: x in s <==> x in t
    ensures s == t
  {
    assert s != [] ==> s[0] in t;
    assert t != [] ==> t[0] in s;
    if s != [] && t != [] {
      if s[0] != t[0] {
        var j :| 0 <= j < |t| && t[j] == s[0];
        var i :| 0 <= i < |s| && s[i] == t[0];
        PrecedesAsymmetric(s[0].name, t[0].name, order);
      }
      SameTails(s, t, order);
      SortedDetermined(s[1..], t[1..], order);
      assert s == [s[0]] + s[1..] && t == [t[0]] + t[1..];
    }
  }

  /** The table depends only on which commands were added, not on the order of adding. */
  lemma AddedCommutes<H>(s: seq<Entry<H>>, a: Entry<H>, b: Entry<H>, order: Order)
    requires Sorted(s, order) && !Named(s, a.name) && !Named(s, b.name) && a.name != b.name
    ensures Added(Added(s, a, order), b, order) == Added(Added(s, b, order), a, order)
  {
    AddedSorted(s, a, order);
    AddedSorted(s, b, order);
    var sa, sb := Added(s, a, order), Added(s, b, order);
    assert !Named(sa, b.name) by {
      forall j | 0 <= j < |sa| ensures sa[j].name != b.name {
        assert sa[j] in sa;
      }
    }
    assert !Named(sb, a.name) by {
      forall j | 0 <= j < |sb| ensures sb[j].name != a.name {
        assert sb[j] in sb;
      }
    }
    AddedSorted(sa, b, order);
    AddedSorted(sb, a, order);
    SortedDetermined(Added(sa, b, order), Added(sb, a, order), order);
  }

  /**
   * The array after `add_command` stores the new record at the insertion point
   * of its name and shifts the entries from there up one: its first
   * `count + 1` entries are the old table with the record added, still sorted,
   * and they hold exactly the old entries and the record.
   */
  lemma Inserted<H>(a0: seq<Entry<H>>, index: nat, e: Entry<H>, count: nat, order: Order)
    requires count < |a0| && Sorted(a0[..count], order) && !Named(a0[..count], e.name)
    requires index == Rank(a0[..count], e.name, order)
    ensures (a0[..index] + [e] + a0[index..|a0| - 1])[..count + 1] == Added(a0[..count], e, order)
    ensures Sorted((a0[..index] + [e] + a0[index..|a0| - 1])[..count + 1], order)
    ensures forall x :: x in (a0[..index] + [e] + a0[index..|a0| - 1])[..count + 1] <==> x in a0[..count] || x == e
  {
    var a1 := a0[..index] + [e] + a0[index..|a0| - 1];
    assert a1[..count + 1] == a0[..count][..index] + [e] + a0[..count][index..];
    AddedSorted(a0[..count], e, order);
  }

  /**
   * The `memmove` of `add_command`: the `a.Length - index - 1` entries from
   * `index` move up by one place; the last entry falls off the end and the
   * entry at `index` stays (to be overwritten by the caller).
   */
  method ShiftRight<T>(a: array<T>, index: nat)
    requires index < a.Length
    modifies a
    ensures a[..] == old(a[..index + 1]) + old(a[index..a.Length - 1])
  {
    var j := a.Length - 1;
    while j > index
      invariant index <= j < a.Length
      invariant forall k | 0 <= k <= j :: a[k] == old(a[k])
      invariant forall k | j < k < a.Length :: a[k] == old(a[k - 1])
    {
      a[j] := a[j - 1];
      j := j - 1;
    }
    assert a[..] == old(a[..index + 1]) + old(a[index..a.Length - 1]) by {
      forall k | 0 <= k < a.Length ensures a[..][k] == (old(a[..index + 1]) + old(a[index..a.Length - 1]))[k] {
      }
    }
  }

  /**
   * The `memmove` of `add_command` followed by the store of the new record:
   * `x` is inserted at `index`, and the last entry falls off the end.
   */
  method InsertAt<T>(a: array<T>, index: nat, x: T)
    requires index < a.Length
    modifies a
    ensures a[..] == old(a[..index]) + [x] + old(a[index..a.Length - 1])
  {
    ShiftRight(a, index);
    ghost var shifted := a[..];
    a[index] := x;
    assert a[..] == shifted[index := x];
  }
}
