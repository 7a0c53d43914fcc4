/** The unique-slug and unique-handle loops (admin-venues.service.ts,
    tour-management.service.ts, auth.service.ts). */
module UniqueNames {
  import opened Prelude
  import opened Text

  /** The i-th name tried: the base itself, then the base with suffix 2, 3, ...
      Slugs separate the suffix with a dash, handles with nothing. */
  function Candidate(base: string, separator: string, i: nat): string {
    if i <= 1 then base else base + separator + Decimal(i)
  }

  /** The names tried: the base, then with 2, 3 and so on. */
  lemma CandidateSpec(base: string, separator: string)
    ensures Candidate(base, separator, 1) == base
    ensures Candidate(base, separator, 2) == base + separator + "2"
    ensures forall i :: i >= 2 ==> Candidate(base, separator, i) == base + separator + Decimal(i)
    ensures Decimal(10) == "10" && Decimal(207) == "207"
  {
    assert Decimal(20) == Decimal(2) + "0";
  }

  lemma CandidatesDiffer(base: string, separator: string, i: nat, j: nat)
    requires 1 <= i < j
    ensures Candidate(base, separator, i) != Candidate(base, separator, j)
  {
    if i == 1 {
      assert |Candidate(base, separator, j)| > |base|;
    } else if Candidate(base, separator, i) == Candidate(base, separator, j) {
      assert Decimal(i) == Candidate(base, separator, i)[|base + separator|..];
      assert Decimal(j) == Candidate(base, separator, j)[|base + separator|..];
      DecimalInjective(i, j);
    }
  }

  /** The k-th name is the first one not taken. */
  ghost predicate FirstFree(taken: set<string>, base: string, separator: string, k: nat) {
    && 1 <= k
    && Candidate(base, separator, k) !in taken
    && forall j :: 1 <= j < k ==> Candidate(base, separator, j) in taken
  }

  ghost function Tried(base: string, separator: string, n: nat): set<string> {
    set i | 1 <= i <= n :: Candidate(base, separator, i)
  }

  lemma {:induction false} TriedSize(base: string, separator: string, n: nat)
    ensures |Tried(base, separator, n)| == n
  {
    if n > 0 {
      TriedSize(base, separator, n - 1);
      forall i | 1 <= i < n ensures Candidate(base, separator, i) != Candidate(base, separator, n) {
        CandidatesDiffer(base, separator, i, n);
      }
      assert Tried(base, separator, n) == Tried(base, separator, n - 1) + {Candidate(base, separator, n)};
    }
  }

  lemma {:induction false} SubsetSize<T>(a: set<T>, b: set<T>)
    requires a <= b
    ensures |a| <= |b|
  {
    if a != {} {
      var x :| x in a;
      SubsetSize(a - {x}, b - {x});
    }
  }

  /** Pigeonhole: n names cannot cover n + 1 candidates. */
  lemma TakenPrefixIsShort(taken: set<string>, base: string, separator: string, n: nat)
    requires forall j :: 1 <= j <= n ==> Candidate(base, separator, j) in taken
    ensures n <= |taken|
  {
    TriedSize(base, separator, n);
    SubsetSize(Tried(base, separator, n), taken);
  }

  lemma FirstFreeUnique(taken: set<string>, base: string, separator: string, k: nat, l: nat)
    requires FirstFree(taken, base, separator, k) && FirstFree(taken, base, separator, l)
    ensures k == l && k <= |taken| + 1
  {
    TakenPrefixIsShort(taken, base, separator, k - 1);
    assert k < l ==> Candidate(base, separator, k) in taken;
    assert l < k ==> Candidate(base, separator, l) in taken;
  }

  /** uniqueSlug and uniqueHandle: at most one probe more than names taken, and the
      smallest suffix that is free. */
  method UniqueName(taken: set<string>, base: string, separator: string) returns (name: string, probes: nat)
    ensures FirstFree(taken, base, separator, probes) && name == Candidate(base, separator, probes)
    ensures probes <= |taken| + 1
  {
    name := base;
    var i := 1;
    while name in taken
      invariant 1 <= i && name == Candidate(base, separator, i)
      invariant forall j :: 1 <= j < i ==> Candidate(base, separator, j) in taken
      decreases |taken| + 1 - i
    {
      TakenPrefixIsShort(taken, base, separator, i);
      i := i + 1;
      name := base + separator + Decimal(i);
    }
    TakenPrefixIsShort(taken, base, separator, i - 1);
    probes := i;
  }

  datatype Error = UniqueViolation

  /** A table whose names have a unique index. The lookup skips soft-deleted rows;
      the index does not. */
  class NamedTable {
    var live: set<string>
    var softDeleted: set<string>

    ghost predicate Valid()
      reads this
    {
      live !! softDeleted
    }

    constructor ()
      ensures Valid() && live == {} && softDeleted == {}
    {
      live, softDeleted := {}, {};
    }

    /** Soft deletion: the lookup no longer sees the name, the index still does. */
    method SoftDelete(name: string)
      requires Valid()
      modifies this
      ensures Valid()
      ensures live == old(live) - {name}
      ensures softDeleted == if name in old(live) then old(softDeleted) + {name} else old(softDeleted)
    {
      if name in live {
        live, softDeleted := live - {name}, softDeleted + {name};
      }
    }

    /** Creating a row fails exactly when a soft-deleted row still holds the name
        that is free among the live ones. */
    method Create(base: string, separator: string) returns (r: Result<string, Error>, ghost k: nat)
      requires Valid()
      modifies this`live
      ensures Valid() && FirstFree(old(live), base, separator, k)
      ensures var name := Candidate(base, separator, k);
              if name in softDeleted then r == Err(UniqueViolation) && live == old(live)
              else r == Ok(name) && live == old(live) + {name}
    {
      var name, probes := UniqueName(live, base, separator);
      k := probes;
      if name in live + softDeleted {
        return Err(UniqueViolation), k;
      }
      live := live + {name};
      r := Ok(name);
    }
  }

  /** The shortest way there: create, delete, create again under the same base. */
  method DeletedNameBlocks(base: string, separator: string) returns (again: Result<string, Error>)
    ensures again == Err(UniqueViolation)
  {
    var t := new NamedTable();
    var first, k := t.Create(base, separator);
    FirstFreeUnique({}, base, separator, k, 1);
    t.SoftDelete(base);
    ghost var l: nat;
    again, l := t.Create(base, separator);
    FirstFreeUnique({}, base, separator, l, 1);
  }
}
