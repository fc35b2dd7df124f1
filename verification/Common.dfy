/** Small vocabulary shared by every part of the model. */
module Common {

  datatype Option<+T> = None | Some(value: T)

  type Label = string
  type Tenant = string

  /** The identity of an object: a tenant namespace and a label inside it. */
  datatype Key = Key(tenant: Tenant, name: Label)

  /** No element occurs twice. */
  ghost predicate NoDuplicates<T>(s: seq<T>) {
    forall i, j :: 0 <= i < j < |s| ==> s[i] != s[j]
  }

  /** `s` lists every element of `xs` exactly once, in some order. */
  ghost predicate Enumerates<T>(s: seq<T>, xs: set<T>) {
    NoDuplicates(s) && (set x | x in s) == xs
  }

  lemma EnumeratesMembers<T>(s: seq<T>, xs: set<T>)
    requires Enumerates(s, xs)
    ensures forall x :: x in s <==> x in xs
  {
    assert forall x :: x in s ==> x in (set y | y in s);
  }

  lemma EnumeratesOnce<T>(s: seq<T>, xs: set<T>)
    requires Enumerates(s, xs)
    ensures NoDuplicates(s)
  {
  }

  lemma EnumerateOneMore<T>(s: seq<T>, xs: set<T>, x: T)
    requires Enumerates(s, xs) && x !in xs
    ensures Enumerates(s + [x], xs + {x})
  {
    EnumeratesMembers(s, xs);
    assert (set y | y in s + [x]) == (set y | y in s) + {x};
  }

  function Lookup<K, V>(m: map<K, V>, k: K): Option<V> {
    if k in m then Some(m[k]) else None
  }

  function Flatten<T>(parts: seq<seq<T>>): seq<T> {
    if parts == [] then [] else parts[0] + Flatten(parts[1..])
  }

  lemma {:induction false} FlattenConcat<T>(xs: seq<seq<T>>, ys: seq<seq<T>>)
    ensures Flatten(xs + ys) == Flatten(xs) + Flatten(ys)
  {
    if xs == [] {
      assert xs + ys == ys;
    } else {
      FlattenConcat(xs[1..], ys);
      calc {
        Flatten(xs + ys);
        { assert (xs + ys)[0] == xs[0] && (xs + ys)[1..] == xs[1..] + ys; }
        xs[0] + Flatten(xs[1..] + ys);
        xs[0] + (Flatten(xs[1..]) + Flatten(ys));
        (xs[0] + Flatten(xs[1..])) + Flatten(ys);
        Flatten(xs) + Flatten(ys);
      }
    }
  }

  /** The parts one after the other with a separator between them. */
  function Join<T>(parts: seq<seq<T>>, sep: seq<T>): seq<T> {
    if parts == [] then []
    else if |parts| == 1 then parts[0]
    else parts[0] + sep + Join(parts[1..], sep)
  }

  lemma {:induction false} JoinConcat<T>(xs: seq<seq<T>>, ys: seq<seq<T>>, sep: seq<T>)
    ensures Join(xs + ys, sep) ==
      if xs == [] then Join(ys, sep) else if ys == [] then Join(xs, sep) else Join(xs, sep) + sep + Join(ys, sep)
  {
    if xs == [] {
      assert xs + ys == ys;
    } else if ys == [] {
      assert xs + ys == xs;
    } else {
      JoinConcat(xs[1..], ys, sep);
      assert (xs + ys)[0] == xs[0] && (xs + ys)[1..] == xs[1..] + ys;
      if |xs| == 1 {
        assert xs[1..] + ys == ys;
      } else {
        assert Join(xs + ys, sep) == xs[0] + sep + (Join(xs[1..], sep) + sep + Join(ys, sep));
      }
    }
  }

  function LowerChar(c: char): char {
    if 'A' <= c <= 'Z' then (c as int + 32) as char else c
  }

  /** ASCII case folding: the comparison key of an identifier. */
  function Lower(s: string): string {
    seq(|s|, i requires 0 <= i < |s| => LowerChar(s[i]))
  }

  lemma LowerIdempotent(s: string)
    ensures Lower(Lower(s)) == Lower(s)
  {
    assert forall i :: 0 <= i < |s| ==> Lower(Lower(s))[i] == Lower(s)[i];
  }

  /** In words: of each character only an upper-case ASCII letter changes, into its lower-case form. */
  lemma LowerInWords(s: string, i: nat)
    requires i < |s|
    ensures |Lower(s)| == |s|
    ensures 'A' <= s[i] <= 'Z' ==> 'a' <= Lower(s)[i] <= 'z' && Lower(s)[i] - 'a' == s[i] - 'A'
    ensures !('A' <= s[i] <= 'Z') ==> Lower(s)[i] == s[i]
  {
    var c := LowerChar(s[i]);
    assert Lower(s)[i] == c;
  }

  predicate IsSpace(c: char) {
    c == ' ' || c == '\t' || c == '\n' || c == '\r'
  }

  function TrimLeft(s: string): string {
    if s != "" && IsSpace(s[0]) then TrimLeft(s[1..]) else s
  }

  function TrimRight(s: string): string {
    if s != "" && IsSpace(s[|s| - 1]) then TrimRight(s[..|s| - 1]) else s
  }

  function Trim(s: string): string {
    TrimRight(TrimLeft(s))
  }

  /** White space, in words. */
  ghost predicate Blank(s: string) {
    forall i :: 0 <= i < |s| ==> s[i] == ' ' || s[i] == '\t' || s[i] == '\n' || s[i] == '\r'
  }

  lemma {:induction false} TrimLeftInWords(s: string) returns (i: nat)
    ensures i <= |s| && Blank(s[..i]) && TrimLeft(s) == s[i..]
    ensures i < |s| ==> !Blank([s[i]])
  {
    i := 0;
    if s != "" && IsSpace(s[0]) {
      i := TrimLeftInWords(s[1..]);
      assert s[..i + 1] == [s[0]] + s[1..][..i];
      assert s[1..][i..] == s[i + 1..];
      i := i + 1;
    } else if s != "" {
      assert [s[0]][0] == s[0];
    }
  }

  lemma {:induction false} TrimRightInWords(s: string) returns (j: nat)
    ensures j <= |s| && Blank(s[j..]) && TrimRight(s) == s[..j]
    ensures 0 < j ==> !Blank([s[j - 1]])
  {
    j := |s|;
    if s != "" && IsSpace(s[|s| - 1]) {
      var front := s[..|s| - 1];
      j := TrimRightInWords(front);
      assert s[j..] == front[j..] + [s[|s| - 1]];
      assert front[..j] == s[..j];
    } else if s != "" {
      assert [s[|s| - 1]][0] == s[|s| - 1];
    }
  }

  /** Trimming takes white space from both ends and leaves none there. */
  lemma TrimInWords(s: string) returns (i: nat, j: nat)
    ensures i <= j <= |s| && Trim(s) == s[i..j]
    ensures Blank(s[..i]) && Blank(s[j..])
    ensures Trim(s) != "" ==> !Blank([s[i]]) && !Blank([s[j - 1]])
  {
    i := TrimLeftInWords(s);
    var t := s[i..];
    var k := TrimRightInWords(t);
    j := i + k;
    assert t[..k] == s[i..j] && t[k..] == s[j..];
  }

  /** Code point order on strings. */
  predicate TextBefore(a: string, b: string) {
    if b == "" then false
    else if a == "" then true
    else if a[0] != b[0] then a[0] < b[0]
    else TextBefore(a[1..], b[1..])
  }

  /** In words: a proper prefix comes before what it starts; otherwise the first different character
    * decides. */
  lemma {:induction false} TextBeforeInWords(a: string, b: string)
    ensures TextBefore(a, b) <==>
      exists i :: 0 <= i <= |a| && i < |b| && a[..i] == b[..i] && (i == |a| || a[i] < b[i])
  {
    if a == "" || b == "" {
      assert b != "" ==> a[..0] == b[..0];
    } else if a[0] != b[0] {
      assert a[..0] == b[..0];
      assert forall i :: 0 < i <= |a| && i < |b| ==> a[..i][0] == a[0] && b[..i][0] == b[0];
    } else {
      var a', b' := a[1..], b[1..];
      TextBeforeInWords(a', b');
      forall i | 0 <= i <= |a'| && i < |b'|
        ensures a'[..i] == b'[..i] <==> a[..i + 1] == b[..i + 1]
        ensures i < |a'| ==> a'[i] == a[i + 1] && b'[i] == b[i + 1]
      {
        assert a[..i + 1] == [a[0]] + a'[..i] && b[..i + 1] == [b[0]] + b'[..i];
        assert a'[..i] == a[..i + 1][1..] && b'[..i] == b[..i + 1][1..];
      }
      if i :| 0 <= i <= |a| && i < |b| && a[..i] == b[..i] && (i == |a| || a[i] < b[i]) {
        assert i > 0;
        assert a'[..i - 1] == b'[..i - 1];
      }
    }
  }

  /** The elements of a finite set, each once, in an arbitrary order. */
  method ListElements<T(==)>(xs: set<T>) returns (s: seq<T>)
    ensures Enumerates(s, xs)
  {
    s := [];
    var rest := xs;
    while rest != {}
      invariant rest <= xs
      invariant Enumerates(s, xs - rest)
      decreases rest
    {
      var x :| x in rest;
      ghost var seen := set y | y in s;
      rest := rest - {x};
      s := s + [x];
      assert (set y | y in s) == seen + {x} == xs - rest;
    }
    assert xs - rest == xs;
  }
}
