/** The two table updates the registry performs element by element: removing
    an id from a bucket, and writing a sequence of (field, value) pairs onto
    an instance. */
module SeqUtil {
  import opened Types

  /** `remove(bucket, id)`: drops every occurrence of `x`, keeping the
      remaining elements in their order. */
  function Remove<T(==, !new)>(s: seq<T>, x: T): (r: seq<T>)
    ensures x !in r
    ensures forall y :: y != x ==> (y in r <==> y in s)
    ensures |r| <= |s|
  {
    if s == [] then []
    else if s[0] == x then Remove(s[1..], x)
    else [s[0]] + Remove(s[1..], x)
  }

  /** Removal distributes over concatenation: the surviving elements keep
      their relative order. */
  lemma {:induction false} RemoveAppend<T(!new)>(a: seq<T>, b: seq<T>, x: T)
    ensures Remove(a + b, x) == Remove(a, x) + Remove(b, x)
  {
    if a == [] {
      assert a + b == b;
    } else {
      assert (a + b)[0] == a[0];
      assert (a + b)[1..] == a[1..] + b;
      RemoveAppend(a[1..], b, x);
    }
  }

  /** Removing an element that is not there changes nothing. */
  lemma {:induction false} RemoveAbsent<T(!new)>(s: seq<T>, x: T)
    requires x !in s
    ensures Remove(s, x) == s
  {
    if s != [] {
      assert x !in s[1..] by { assert forall y :: y in s[1..] ==> y in s; }
      RemoveAbsent(s[1..], x);
    }
  }

  /** No element occurs twice. */
  ghost predicate Distinct<T>(s: seq<T>)
  {
    forall i, j :: 0 <= i < j < |s| ==> s[i] != s[j]
  }

  /** Removal keeps a duplicate-free sequence duplicate-free. */
  lemma {:induction false} RemoveDistinct<T(!new)>(s: seq<T>, x: T)
    requires Distinct(s)
    ensures Distinct(Remove(s, x))
  {
    if s != [] {
      assert Distinct(s[1..]) by {
        forall i, j | 0 <= i < j < |s[1..]| ensures s[1..][i] != s[1..][j] {
          assert s[1..][i] == s[i + 1] && s[1..][j] == s[j + 1];
        }
      }
      RemoveDistinct(s[1..], x);
      if s[0] != x {
        var r := Remove(s[1..], x);
        assert s[0] !in s[1..] by {
          forall k | 0 <= k < |s[1..]| ensures s[1..][k] != s[0] { assert s[1..][k] == s[k + 1]; }
        }
        assert s[0] !in r;
        forall i, j | 0 <= i < j < |[s[0]] + r| ensures ([s[0]] + r)[i] != ([s[0]] + r)[j] {
          if i == 0 { assert ([s[0]] + r)[j] == r[j - 1]; assert r[j - 1] in r; }
          else { assert ([s[0]] + r)[i] == r[i - 1] && ([s[0]] + r)[j] == r[j - 1]; }
        }
      }
    }
  }

  /** Appending a new element keeps a sequence duplicate-free. */
  lemma DistinctAppend<T>(s: seq<T>, x: T)
    requires Distinct(s) && x !in s
    ensures Distinct(s + [x])
  {
    forall i, j | 0 <= i < j < |s + [x]| ensures (s + [x])[i] != (s + [x])[j] {
      if j == |s| { assert (s + [x])[i] == s[i]; assert s[i] in s; } else { assert (s + [x])[i] == s[i] && (s + [x])[j] == s[j]; }
    }
  }

  /** The fields written by a sequence of assignments. */
  function KeysOf(pairs: seq<(string, Value)>): set<string>
  {
    set i | 0 <= i < |pairs| :: pairs[i].0
  }

  /** `target[k] = v` for each pair in turn: no field is ever dropped. */
  function AssignAll(fields: map<string, Value>, pairs: seq<(string, Value)>): (r: map<string, Value>)
    ensures fields.Keys <= r.Keys
    decreases |pairs|
  {
    if pairs == [] then fields
    else AssignAll(fields[pairs[0].0 := pairs[0].1], pairs[1..])
  }

  /** The reference reading of a sequence of assignments: the value of a
      field is the one written by the last pair naming it. */
  function LastWrite(pairs: seq<(string, Value)>, k: string): Option<Value>
  {
    if pairs == [] then None
    else if pairs[|pairs| - 1].0 == k then Some(pairs[|pairs| - 1].1)
    else LastWrite(pairs[..|pairs| - 1], k)
  }

  lemma {:induction false} LastWriteIn(pairs: seq<(string, Value)>, k: string)
    ensures LastWrite(pairs, k).Some? <==> k in KeysOf(pairs)
  {
    if pairs != [] {
      var init := pairs[..|pairs| - 1];
      LastWriteIn(init, k);
      assert KeysOf(pairs) == KeysOf(init) + {pairs[|pairs| - 1].0} by {
        forall j | 0 <= j < |init| ensures init[j] == pairs[j] { }
      }
    }
  }

  lemma {:induction false} LastWriteCons(p: (string, Value), pairs: seq<(string, Value)>, k: string)
    ensures LastWrite([p] + pairs, k) == if LastWrite(pairs, k).Some? then LastWrite(pairs, k) else if p.0 == k then Some(p.1) else None
  {
    if pairs != [] {
      var all := [p] + pairs;
      assert all[..|all| - 1] == [p] + pairs[..|pairs| - 1];
      LastWriteCons(p, pairs[..|pairs| - 1], k);
    }
  }

  /** The fields after the assignments are the old ones plus those written. */
  lemma {:induction false} AssignAllKeys(fields: map<string, Value>, pairs: seq<(string, Value)>, k: string)
    ensures k in AssignAll(fields, pairs) <==> k in fields || k in KeysOf(pairs)
  {
    AssignAllAt(fields, pairs, k);
    LastWriteIn(pairs, k);
  }

  /** After the assignments, a field holds the value of its last write, and
      a field no pair names keeps its value (or stays absent). */
  lemma {:induction false} AssignAllAt(fields: map<string, Value>, pairs: seq<(string, Value)>, k: string)
    ensures k in AssignAll(fields, pairs) <==> k in fields || LastWrite(pairs, k).Some?
    ensures LastWrite(pairs, k).Some? ==> AssignAll(fields, pairs)[k] == LastWrite(pairs, k).value
    ensures LastWrite(pairs, k).None? && k in fields ==> AssignAll(fields, pairs)[k] == fields[k]
    decreases |pairs|
  {
    if pairs != [] {
      AssignAllAt(fields[pairs[0].0 := pairs[0].1], pairs[1..], k);
      LastWriteCons(pairs[0], pairs[1..], k);
      assert [pairs[0]] + pairs[1..] == pairs;
    }
  }

  /** Regrouping three appended blocks. */
  lemma AppendRegroup<T>(t: seq<T>, a: seq<T>, b: seq<T>, c: seq<T>)
    ensures t + a + b + c == t + (a + b + c)
  {
  }

  lemma AppendRegroup2<T>(t: seq<T>, a: seq<T>, b: seq<T>)
    ensures t + a + b == t + (a + b)
  {
  }

  lemma AppendRegroup4<T>(t: seq<T>, a: seq<T>, b: seq<T>, c: seq<T>, d: seq<T>)
    ensures t + a + b + c + d == t + (a + b + c + d)
  {
  }

  /** Adding a fresh key and removing it again gives the map back. */
  lemma MapAddRemove<K, V>(m: map<K, V>, k: K, v: V)
    requires k !in m
    ensures m[k := v] - {k} == m
  {
  }
}
