/**
 * The directory's name filter: the table lists the students whose lowercased
 * name contains the lowercased search text, in the order the server gave them.
 */
module Search {
  import opened Records

  /** ASCII lowercasing of one character; every other character is kept. */
  function Lower(c: char): (r: char)
    ensures !('A' <= r <= 'Z')
    ensures 'A' <= c <= 'Z' ==> r as int == c as int + 32
    ensures !('A' <= c <= 'Z') ==> r == c
  {
    if 'A' <= c <= 'Z' then (c as int + 32) as char else c
  }

  /** ASCII `toLowerCase()`, character by character. */
  function LowerStr(s: string): (r: string)
    ensures |r| == |s|
    ensures forall i :: 0 <= i < |s| ==> r[i] == Lower(s[i])
  {
    if s == [] then [] else [Lower(s[0])] + LowerStr(s[1..])
  }

  /** Lowercasing twice is lowercasing once. */
  lemma LowerStrIdempotent(s: string)
    ensures LowerStr(LowerStr(s)) == LowerStr(s)
  {
  }

  predicate StartsWith(s: string, t: string)
  {
    |t| <= |s| && s[..|t|] == t
  }

  /** `s.includes(t)`: `t` starts at some position of `s` (the empty string at every one). */
  predicate Includes(s: string, t: string)
    ensures Includes(s, t) ==> |t| <= |s|
    ensures t == [] ==> Includes(s, t)
    decreases |s|
  {
    StartsWith(s, t) || (|s| > 0 && Includes(s[1..], t))
  }

  /** `t` occurs in `s` starting at index `i`. */
  ghost predicate OccursAt(s: string, t: string, i: int)
  {
    0 <= i && i + |t| <= |s| && s[i..i + |t|] == t
  }

  /** The recursive search finds `t` exactly when `t` occurs at some index of `s`. */
  lemma {:induction false} IncludesIff(s: string, t: string)
    ensures Includes(s, t) <==> exists i :: OccursAt(s, t, i)
    decreases |s|
  {
    if Includes(s, t) {
      if StartsWith(s, t) {
        assert OccursAt(s, t, 0);
      } else {
        IncludesIff(s[1..], t);
        var i :| OccursAt(s[1..], t, i);
        assert s[1..][i..i + |t|] == s[i + 1..i + 1 + |t|];
        assert OccursAt(s, t, i + 1);
      }
    }
    if exists i :: OccursAt(s, t, i) {
      var i :| OccursAt(s, t, i);
      if i > 0 {
        assert s[1..][i - 1..i - 1 + |t|] == s[i..i + |t|];
        assert OccursAt(s[1..], t, i - 1);
        IncludesIff(s[1..], t);
      } else {
        assert StartsWith(s, t);
      }
    }
  }

  /** The empty search text is included in every name. */
  lemma IncludesEmpty(s: string)
    ensures Includes(s, "")
  {
  }

  /** The per-student test of line 27: the name matches the search text ignoring case. */
  predicate Matches(st: Student, q: string)
    ensures |q| > |st.fields.name| ==> !Matches(st, q)
  {
    Includes(LowerStr(st.fields.name), LowerStr(q))
  }

  /** A student matches exactly when the lowercased query occurs somewhere in the lowercased name. */
  lemma MatchesIff(st: Student, q: string)
    ensures Matches(st, q) ==> exists i :: OccursAt(LowerStr(st.fields.name), LowerStr(q), i)
    ensures (exists i :: OccursAt(LowerStr(st.fields.name), LowerStr(q), i)) ==> Matches(st, q)
  {
    IncludesIff(LowerStr(st.fields.name), LowerStr(q));
  }

  /** The table's name filter (line 27): the listed students that match, in list order. */
  function Filter(ss: seq<Student>, q: string): (r: seq<Student>)
    ensures |r| <= |ss|
    ensures forall x :: x in r ==> x in ss && Matches(x, q)
    ensures forall x :: x in ss && Matches(x, q) ==> x in r
  {
    if ss == [] then []
    else (if Matches(ss[0], q) then [ss[0]] else []) + Filter(ss[1..], q)
  }

  /** `a` can be obtained from `b` by deleting elements, so order is kept. */
  predicate IsSubsequence<T(==)>(a: seq<T>, b: seq<T>)
    decreases |b|
  {
    if a == [] then true
    else if b == [] then false
    else (a[0] == b[0] && IsSubsequence(a[1..], b[1..])) || IsSubsequence(a, b[1..])
  }

  /** The filtered list keeps the students in their original order. */
  lemma {:induction false} FilterIsSubsequence(ss: seq<Student>, q: string)
    ensures IsSubsequence(Filter(ss, q), ss)
  {
    if ss != [] {
      FilterIsSubsequence(ss[1..], q);
      var r := Filter(ss, q);
      if Matches(ss[0], q) {
        assert r == [ss[0]] + Filter(ss[1..], q);
        assert r[0] == ss[0] && r[1..] == Filter(ss[1..], q);
      } else {
        assert r == Filter(ss[1..], q);
      }
    }
  }

  /** Each matching student appears as often as in the list; a non-matching one never. */
  lemma {:induction false} FilterCount(ss: seq<Student>, q: string, x: Student)
    ensures multiset(Filter(ss, q))[x] == if Matches(x, q) then multiset(ss)[x] else 0
  {
    if ss != [] {
      FilterCount(ss[1..], q, x);
      assert ss == [ss[0]] + ss[1..];
      assert multiset(ss) == multiset([ss[0]]) + multiset(ss[1..]);
    }
  }

  /** Filtering a concatenation filters each part. */
  lemma {:induction false} FilterAppend(a: seq<Student>, b: seq<Student>, q: string)
    ensures Filter(a + b, q) == Filter(a, q) + Filter(b, q)
  {
    if a != [] {
      assert (a + b)[1..] == a[1..] + b;
      FilterAppend(a[1..], b, q);
    } else {
      assert a + b == b;
    }
  }

  /** An empty search lists every student. */
  lemma {:induction false} FilterEmptySearch(ss: seq<Student>)
    ensures Filter(ss, "") == ss
  {
    if ss != [] {
      IncludesEmpty(LowerStr(ss[0].fields.name));
      FilterEmptySearch(ss[1..]);
    }
  }

  /** Filtering the filtered list again changes nothing. */
  lemma {:induction false} FilterIdempotent(ss: seq<Student>, q: string)
    ensures Filter(Filter(ss, q), q) == Filter(ss, q)
  {
    if ss != [] {
      var rest := Filter(ss[1..], q);
      FilterIdempotent(ss[1..], q);
      if Matches(ss[0], q) {
        FilterAppend([ss[0]], rest, q);
        assert [ss[0]][1..] == [];
        assert Filter([ss[0]], q) == [ss[0]];
      } else {
        assert Filter(ss, q) == rest;
      }
    }
  }

  /** The case of the search text does not matter. */
  lemma {:induction false} FilterIgnoresQueryCase(ss: seq<Student>, q: string)
    ensures Filter(ss, LowerStr(q)) == Filter(ss, q)
  {
    LowerStrIdempotent(q);
    if ss != [] {
      FilterIgnoresQueryCase(ss[1..], q);
    }
  }

  /** Searching "an" among Ann and Bob lists Ann only; the empty search lists both. */
  lemma FilterAnnBob(ann: Student, bob: Student)
    requires ann.fields.name == "Ann" && bob.fields.name == "Bob"
    ensures Filter([ann, bob], "an") == [ann]
    ensures Filter([ann, bob], "") == [ann, bob]
  {
    assert LowerStr("Ann") == "ann";
    assert LowerStr("Bob") == "bob";
    assert LowerStr("an") == "an";
    assert StartsWith("ann", "an");
    assert !Includes("bob", "an") by {
      assert !StartsWith("bob", "an");
      assert "bob"[1..] == "ob" && !StartsWith("ob", "an");
      assert "ob"[1..] == "b" && !StartsWith("b", "an");
      assert "b"[1..] == "" && !StartsWith("", "an");
    }
    assert [ann, bob][1..] == [bob];
    FilterEmptySearch([ann, bob]);
  }
}
