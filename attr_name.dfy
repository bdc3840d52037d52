/** The attribute-name rename applied to every attribute of a component tag
    before it is assigned onto the instance: the global replacement of
    `-x` (x in a..z) by the upper-case x, scanning left to right. */
module AttrName {

  predicate IsLower(c: char) { 'a' <= c <= 'z' }

  predicate IsUpper(c: char) { 'A' <= c <= 'Z' }

  function ToUpper(c: char): (u: char)
    requires IsLower(c)
    ensures IsUpper(u)
  {
    (c as int - 32) as char
  }

  function ToLower(c: char): (l: char)
    requires IsUpper(c)
    ensures IsLower(l) && ToUpper(l) == c
  {
    (c as int + 32) as char
  }

  /** The rename. A match consumes both of its characters, so the scan
      resumes after the letter; a `-` not followed by a..z is kept. Each match
      shortens the name by one character, every other character is kept. */
  function Camelize(s: string): (r: string)
    ensures |r| <= |s| <= 2 * |r|
  {
    if |s| >= 2 && s[0] == '-' && IsLower(s[1]) then [ToUpper(s[1])] + Camelize(s[2..])
    else if s == [] then []
    else [s[0]] + Camelize(s[1..])
  }

  /** No `-` is immediately followed by a lower-case letter. */
  predicate NoDashLower(s: string)
  {
    forall i :: 0 <= i < |s| - 1 ==> !(s[i] == '-' && IsLower(s[i + 1]))
  }

  /** The reference inverse on dash-free names: each upper-case letter X
      becomes `-x`. */
  function Dasherize(t: string): string
  {
    if t == [] then []
    else (if IsUpper(t[0]) then ['-', ToLower(t[0])] else [t[0]]) + Dasherize(t[1..])
  }

  /** A name containing no `-` is left unchanged. */
  lemma {:induction false} CamelizeWithoutDash(s: string)
    requires '-' !in s
    ensures Camelize(s) == s
  {
    if s != [] {
      assert s[0] != '-';
      assert '-' !in s[1..] by { assert forall c :: c in s[1..] ==> c in s; }
      CamelizeWithoutDash(s[1..]);
    }
  }

  /** The first character of the result is either the first character of
      the input or the upper-cased letter of a leading `-x`. */
  lemma CamelizeHead(s: string)
    requires s != []
    ensures Camelize(s) != []
    ensures Camelize(s)[0] == s[0] || (|s| >= 2 && s[0] == '-' && IsLower(s[1]) && Camelize(s)[0] == ToUpper(s[1]))
  {
  }

  /** The result holds no `-x` pair any more: every match was replaced. */
  lemma {:induction false} CamelizeLeavesNoPair(s: string)
    ensures NoDashLower(Camelize(s))
  {
    if |s| >= 2 && s[0] == '-' && IsLower(s[1]) {
      CamelizeLeavesNoPair(s[2..]);
      var r := Camelize(s[2..]);
      assert Camelize(s) == [ToUpper(s[1])] + r;
      forall i | 0 <= i < |Camelize(s)| - 1
        ensures !(Camelize(s)[i] == '-' && IsLower(Camelize(s)[i + 1]))
      {
        if i > 0 { assert Camelize(s)[i] == r[i - 1] && Camelize(s)[i + 1] == r[i]; }
      }
    } else if s != [] {
      CamelizeLeavesNoPair(s[1..]);
      var r := Camelize(s[1..]);
      assert Camelize(s) == [s[0]] + r;
      if r != [] {
        CamelizeHead(s[1..]);
        // a kept `-` at the front is never followed by a lower-case letter
        assert s[0] == '-' ==> !IsLower(r[0]);
      }
      forall i | 0 <= i < |Camelize(s)| - 1
        ensures !(Camelize(s)[i] == '-' && IsLower(Camelize(s)[i + 1]))
      {
        if i > 0 { assert Camelize(s)[i] == r[i - 1] && Camelize(s)[i + 1] == r[i]; }
      }
    }
  }

  /** A name with no `-x` pair is a fixed point of the rename. */
  lemma {:induction false} CamelizeFixesNoPair(s: string)
    requires NoDashLower(s)
    ensures Camelize(s) == s
  {
    if s != [] {
      assert NoDashLower(s[1..]) by {
        forall i | 0 <= i < |s[1..]| - 1
          ensures !(s[1..][i] == '-' && IsLower(s[1..][i + 1]))
        {
          assert s[1..][i] == s[i + 1] && s[1..][i + 1] == s[i + 2];
        }
      }
      CamelizeFixesNoPair(s[1..]);
    }
  }

  /** Renaming twice is renaming once. */
  lemma CamelizeIdempotent(s: string)
    ensures Camelize(Camelize(s)) == Camelize(s)
  {
    CamelizeLeavesNoPair(s);
    CamelizeFixesNoPair(Camelize(s));
  }

  /** The rename undoes `Dasherize` on every dash-free name: each `-x` it
      produced turns back into X and every other character is kept in order. */
  lemma {:induction false} CamelizeDasherize(t: string)
    requires '-' !in t
    ensures Camelize(Dasherize(t)) == t
  {
    if t != [] {
      assert '-' !in t[1..] by { assert forall c :: c in t[1..] ==> c in t; }
      CamelizeDasherize(t[1..]);
      var rest := Dasherize(t[1..]);
      if IsUpper(t[0]) {
        var d := ['-', ToLower(t[0])] + rest;
        assert Dasherize(t) == d;
        assert d[2..] == rest;
      } else {
        var d := [t[0]] + rest;
        assert Dasherize(t) == d;
        assert d[1..] == rest;
        assert t[0] != '-';
      }
    }
  }
}
