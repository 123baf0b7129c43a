/**
 * The table of registered validators, keyed by validator code. Registering a
 * code twice is fatal: the Go code calls log.Panicf, modelled here as an
 * explicit Panic outcome that leaves the table untouched.
 */
module Registry {
  import opened Types

  /** The text log.Panicf reports for a duplicate code. */
  function PanicMessage(code: string): string
  {
    "Validator code " + code + " already exist."
  }

  /** Every key is the code of the validator stored under it. */
  ghost predicate KeysMatchCodes<R>(table: map<string, Validator<R>>)
  {
    forall k :: k in table ==> table[k].code == k
  }

  /** The effect of one registration on the table, as a value. */
  datatype Insertion<R> = Inserted(table: map<string, Validator<R>>) | Panicked(message: string)

  /** One `Add` on the table `table`: refuse a present code, otherwise store `v` under its code. */
  function Insert<R>(table: map<string, Validator<R>>, v: Validator<R>): (r: Insertion<R>)
    ensures r.Panicked? <==> v.code in table
    ensures r.Panicked? ==> r.message == PanicMessage(v.code)
    ensures r.Inserted? ==> r.table.Keys == table.Keys + {v.code} && r.table[v.code] == v
    ensures r.Inserted? ==> |r.table| == |table| + 1
    ensures r.Inserted? ==> forall k :: k in table ==> k in r.table && r.table[k] == table[k]
    ensures r.Inserted? && KeysMatchCodes(table) ==> KeysMatchCodes(r.table)
  {
    if v.code in table then Panicked(PanicMessage(v.code)) else Inserted(table[v.code := v])
  }

  /** Registrations `vs` made one after the other (each as Insert does), stopping at the first panic. */
  function InsertAll<R>(table: map<string, Validator<R>>, vs: seq<Validator<R>>): Insertion<R>
    decreases |vs|
  {
    if vs == [] then Inserted(table)
    else if vs[0].code in table then Panicked(PanicMessage(vs[0].code))
    else InsertAll(table[vs[0].code := vs[0]], vs[1..])
  }

  /** Each step of a chain is one Insert: a panic ends the chain, a success feeds the rest. */
  lemma InsertAllSteps<R>(table: map<string, Validator<R>>, vs: seq<Validator<R>>)
    requires vs != []
    ensures Insert(table, vs[0]).Panicked? ==> InsertAll(table, vs) == Insert(table, vs[0])
    ensures Insert(table, vs[0]).Inserted? ==> InsertAll(table, vs) == InsertAll(Insert(table, vs[0]).table, vs[1..])
  {
  }

  /** A chain of one registration is that registration. */
  lemma InsertAllSingle<R>(table: map<string, Validator<R>>, v: Validator<R>)
    ensures InsertAll(table, [v]) == Insert(table, v)
  {
    if v.code !in table {
      assert [v][1..] == [];
    }
  }

  /** The codes of `vs`. */
  ghost function Codes<R>(vs: seq<Validator<R>>): set<string>
  {
    set i | 0 <= i < |vs| :: vs[i].code
  }

  /** No two positions of `vs` carry the same code. */
  ghost predicate DistinctCodes<R>(vs: seq<Validator<R>>)
  {
    forall i, j :: 0 <= i < j < |vs| ==> vs[i].code != vs[j].code
  }

  /** The code at position `i` is already taken, by the table or by an earlier registration. */
  ghost predicate TakenAt<R>(table: map<string, Validator<R>>, vs: seq<Validator<R>>, i: int)
    requires 0 <= i < |vs|
  {
    vs[i].code in table || exists j :: 0 <= j < i && vs[j].code == vs[i].code
  }

  lemma CodesCons<R>(vs: seq<Validator<R>>)
    requires vs != []
    ensures Codes(vs) == {vs[0].code} + Codes(vs[1..])
  {
    var rest := vs[1..];
    forall c | c in Codes(vs) ensures c in {vs[0].code} + Codes(rest) {
      var i :| 0 <= i < |vs| && vs[i].code == c;
      if i > 0 {
        assert rest[i - 1] == vs[i];
      }
    }
    forall c | c in Codes(rest) ensures c in Codes(vs) {
      var i :| 0 <= i < |rest| && rest[i].code == c;
      assert vs[i + 1] == rest[i];
    }
  }

  lemma DistinctCodesTail<R>(vs: seq<Validator<R>>)
    requires vs != []
    ensures DistinctCodes(vs) <==> DistinctCodes(vs[1..]) && vs[0].code !in Codes(vs[1..])
  {
    var rest := vs[1..];
    if DistinctCodes(rest) && vs[0].code !in Codes(rest) {
      forall i, j | 0 <= i < j < |vs| ensures vs[i].code != vs[j].code {
        assert vs[j] == rest[j - 1];
        if i > 0 {
          assert vs[i] == rest[i - 1];
        }
      }
    }
    if DistinctCodes(vs) {
      forall i, j | 0 <= i < j < |rest| ensures rest[i].code != rest[j].code {
        assert rest[i] == vs[i + 1] && rest[j] == vs[j + 1];
      }
      forall j | 0 <= j < |rest| ensures rest[j].code != vs[0].code {
        assert rest[j] == vs[j + 1];
      }
    }
  }

  /**
   * A chain of registrations succeeds exactly when the codes are pairwise distinct
   * and none is in the table already.
   */
  lemma {:induction false} InsertAllSucceedsIff<R>(table: map<string, Validator<R>>, vs: seq<Validator<R>>)
    ensures InsertAll(table, vs).Inserted? <==> DistinctCodes(vs) && Codes(vs) !! table.Keys
    decreases |vs|
  {
    if vs != [] {
      var v, rest := vs[0], vs[1..];
      CodesCons(vs);
      DistinctCodesTail(vs);
      if v.code !in table {
        InsertAllSucceedsIff(table[v.code := v], rest);
      }
    }
  }

  /**
   * A chain of registrations that succeeds keeps the old entries and stores each
   * new validator under its own code, and nothing else.
   */
  lemma {:induction false} InsertAllTable<R>(table: map<string, Validator<R>>, vs: seq<Validator<R>>)
    requires InsertAll(table, vs).Inserted?
    ensures InsertAll(table, vs).table.Keys == table.Keys + Codes(vs)
    ensures forall k :: k in table ==> InsertAll(table, vs).table[k] == table[k]
    ensures forall i :: 0 <= i < |vs| ==> InsertAll(table, vs).table[vs[i].code] == vs[i]
    decreases |vs|
  {
    if vs == [] {
      assert Codes(vs) == {};
    } else {
      var v, rest := vs[0], vs[1..];
      var t := table[v.code := v];
      assert InsertAll(table, vs) == InsertAll(t, rest);
      var r := InsertAll(t, rest).table;
      InsertAllTable(t, rest);
      InsertAllSucceedsIff(t, rest);
      CodesCons(vs);
      forall k ensures k in r <==> k in table.Keys + Codes(vs) {
        assert k in t <==> k in table || k == v.code;
      }
      assert r.Keys == table.Keys + Codes(vs);
      forall i | 0 <= i < |vs| ensures r[vs[i].code] == vs[i] {
        if i == 0 {
          assert v.code in t && r[v.code] == t[v.code];
        } else {
          assert vs[i] == rest[i - 1];
          assert r[rest[i - 1].code] == rest[i - 1];
        }
      }
    }
  }

  /** A failed chain reports the first position whose code is already taken. */
  lemma {:induction false} InsertAllPanicNamesFirstDuplicate<R>(table: map<string, Validator<R>>, vs: seq<Validator<R>>)
    requires InsertAll(table, vs).Panicked?
    ensures exists i ::
      && 0 <= i < |vs|
      && TakenAt(table, vs, i)
      && InsertAll(table, vs).message == PanicMessage(vs[i].code)
      && forall k :: 0 <= k < i ==> !TakenAt(table, vs, k)
    decreases |vs|
  {
    var v, rest := vs[0], vs[1..];
    if v.code in table {
      assert TakenAt(table, vs, 0);
    } else {
      var t := table[v.code := v];
      InsertAllPanicNamesFirstDuplicate(t, rest);
      var i :| 0 <= i < |rest| && TakenAt(t, rest, i)
        && InsertAll(t, rest).message == PanicMessage(rest[i].code)
        && forall k :: 0 <= k < i ==> !TakenAt(t, rest, k);
      assert vs[i + 1] == rest[i];
      if rest[i].code in t {
        if rest[i].code == v.code {
          assert vs[0].code == vs[i + 1].code;
        }
      } else {
        var j :| 0 <= j < i && rest[j].code == rest[i].code;
        assert vs[j + 1] == rest[j];
      }
      assert TakenAt(table, vs, i + 1);
      forall k | 0 <= k < i + 1 ensures !TakenAt(table, vs, k) {
        if k > 0 {
          assert vs[k] == rest[k - 1];
          assert !TakenAt(t, rest, k - 1);
          assert vs[k].code != v.code;
          forall j | 0 <= j < k ensures vs[j].code != vs[k].code {
            if j > 0 {
              assert vs[j] == rest[j - 1];
            }
          }
        }
      }
    }
  }

  lemma TwoOccurrences<R>(s: seq<Validator<R>>, i: int, j: int)
    requires 0 <= i < j < |s| && s[i] == s[j]
    ensures multiset(s)[s[i]] >= 2
  {
    assert s == s[..j] + s[j..];
    assert s[..j][i] == s[i];
    assert s[j..][0] == s[j];
    assert multiset(s) == multiset(s[..j]) + multiset(s[j..]);
  }

  lemma {:induction false} DistinctCodesOccurOnce<R>(vs: seq<Validator<R>>, x: Validator<R>)
    requires DistinctCodes(vs)
    ensures multiset(vs)[x] <= 1
    decreases |vs|
  {
    if vs != [] {
      var rest := vs[1..];
      assert vs == [vs[0]] + rest;
      DistinctCodesTail(vs);
      DistinctCodesOccurOnce(rest, x);
    }
  }

  /** A validator found in one sequence of a permutation has a position in the other. */
  lemma PermutationIndex<R>(vs: seq<Validator<R>>, ws: seq<Validator<R>>, i: int) returns (j: int)
    requires multiset(vs) == multiset(ws) && 0 <= i < |ws|
    ensures 0 <= j < |vs| && vs[j] == ws[i]
  {
    assert ws[i] in multiset(ws);
    assert ws[i] in multiset(vs);
    j :| 0 <= j < |vs| && vs[j] == ws[i];
  }

  lemma DistinctCodesPermutation<R>(vs: seq<Validator<R>>, ws: seq<Validator<R>>)
    requires multiset(vs) == multiset(ws)
    requires DistinctCodes(vs)
    ensures DistinctCodes(ws)
  {
    forall i, j | 0 <= i < j < |ws| ensures ws[i].code != ws[j].code {
      if ws[i].code == ws[j].code {
        var i' := PermutationIndex(vs, ws, i);
        var j' := PermutationIndex(vs, ws, j);
        assert i' == j';
        TwoOccurrences(ws, i, j);
        DistinctCodesOccurOnce(vs, ws[i]);
        assert false;
      }
    }
  }

  lemma CodesPermutation<R>(vs: seq<Validator<R>>, ws: seq<Validator<R>>)
    requires multiset(vs) == multiset(ws)
    ensures Codes(ws) <= Codes(vs)
  {
    forall c | c in Codes(ws) ensures c in Codes(vs) {
      var i :| 0 <= i < |ws| && ws[i].code == c;
      var j := PermutationIndex(vs, ws, i);
    }
  }

  /**
   * The order of registration does not matter: any reordering of the same
   * validators succeeds or panics alike, and on success yields the same table.
   */
  lemma InsertAllOrderIndependent<R>(table: map<string, Validator<R>>, vs: seq<Validator<R>>, ws: seq<Validator<R>>)
    requires multiset(vs) == multiset(ws)
    ensures InsertAll(table, vs).Inserted? <==> InsertAll(table, ws).Inserted?
    ensures InsertAll(table, vs).Inserted? ==> InsertAll(table, vs).table == InsertAll(table, ws).table
  {
    CodesPermutation(vs, ws);
    CodesPermutation(ws, vs);
    if DistinctCodes(vs) {
      DistinctCodesPermutation(vs, ws);
    }
    if DistinctCodes(ws) {
      DistinctCodesPermutation(ws, vs);
    }
    InsertAllSucceedsIff(table, vs);
    InsertAllSucceedsIff(table, ws);
    if InsertAll(table, vs).Inserted? {
      InsertAllTable(table, vs);
      InsertAllTable(table, ws);
      var r, s := InsertAll(table, vs).table, InsertAll(table, ws).table;
      forall k | k in r ensures k in s && r[k] == s[k] {
        if k !in table {
          var i :| 0 <= i < |ws| && ws[i].code == k;
          var j := PermutationIndex(vs, ws, i);
        }
      }
      assert r == s;
    }
  }

  /** What `Add` reports: the validator went in, or the registration panicked. */
  datatype AddOutcome = Added | Panic(message: string)

  /** Go's `defaultRegistry`: one map from code to validator, updated in place. */
  class DefaultRegistry<R> {
    var data: map<string, Validator<R>>

    ghost predicate Valid()
      reads this
    {
      KeysMatchCodes(data)
    }

    /** NewValidatorsRegistry: a registry with an empty table. */
    constructor ()
      ensures Valid() && data == map[]
    {
      data := map[];
    }

    /** Register `v`, panicking if its code is present; the table changes exactly as Insert says. */
    method Add(v: Validator<R>) returns (outcome: AddOutcome)
      modifies this
      ensures old(Valid()) ==> Valid()
      ensures Insert(old(data), v).Panicked? ==>
        outcome == Panic(Insert(old(data), v).message) && data == old(data)
      ensures Insert(old(data), v).Inserted? ==>
        outcome == Added && data == Insert(old(data), v).table
      ensures outcome == Added ==> Get(v.code) == Some(v) && Len() == old(Len()) + 1
    {
      if v.code in data {
        outcome := Panic(PanicMessage(v.code));
        return;
      }
      data := data[v.code := v];
      outcome := Added;
    }

    /** The number of registered validators. */
    function Len(): (n: nat)
      reads this
      ensures n == |data.Keys|
      ensures n == 0 <==> data == map[]
    {
      |data|
    }

    /** The whole table. */
    function All(): (m: map<string, Validator<R>>)
      reads this
      ensures m.Keys == data.Keys && forall k :: k in m ==> m[k] == data[k]
      ensures Valid() ==> KeysMatchCodes(m)
    {
      data
    }

    /** The validator registered under `k`, if any; absence is not an error. */
    function Get(k: string): (r: Option<Validator<R>>)
      reads this
      ensures r.None? <==> k !in data
      ensures r.Some? ==> r.value == data[k]
      ensures r.Some? && Valid() ==> r.value.code == k
    {
      if k in data then Some(data[k]) else None
    }
  }
}
