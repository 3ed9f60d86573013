/** Generic sequence helpers: joining with a separator, as Python's
    `sep.join(parts)` does; removing an element (`Without`) and keeping first
    occurrences (`Dedup`), which describe dict key orders; and small facts
    about concatenation (`BlockAt`, `ConcatInit`, `ConcatAssoc`). */
module Seqs {

  /** The sum of the lengths of `parts`. */
  function TotalLength<T>(parts: seq<seq<T>>): nat
  {
    if |parts| == 0 then 0
    else TotalLength(parts[..|parts| - 1]) + |parts[|parts| - 1]|
  }

  /** `sep.join(parts)`: the parts in order with one `sep` between neighbours
      and none before the first or after the last. */
  function Join<T>(parts: seq<seq<T>>, sep: seq<T>): seq<T>
  {
    if |parts| == 0 then []
    else if |parts| == 1 then parts[0]
    else Join(parts[..|parts| - 1], sep) + sep + parts[|parts| - 1]
  }

  /** The joined text is as long as the parts together plus one separator
      between each pair of neighbours, and starts with the first part. */
  lemma {:induction false} JoinLength<T>(parts: seq<seq<T>>, sep: seq<T>)
    requires |parts| > 0
    ensures |Join(parts, sep)| == TotalLength(parts) + (|parts| - 1) * |sep|
    ensures parts[0] <= Join(parts, sep)
  {
    if |parts| > 1 {
      var init := parts[..|parts| - 1];
      assert init[0] == parts[0];
      JoinLength(init, sep);
    } else {
      assert parts[..0] == [];
    }
  }

  /** Every part followed by `sep`: the text Join would give if the separator
      were a terminator instead. An independent reading of Join. */
  function Terminated<T>(parts: seq<seq<T>>, sep: seq<T>): seq<T>
  {
    if |parts| == 0 then []
    else Terminated(parts[..|parts| - 1], sep) + parts[|parts| - 1] + sep
  }

  /** Join puts the separator exactly between parts: adding one separator at
      the end gives every part terminated by it, so there is no trailing one. */
  lemma {:induction false} JoinThenSeparator<T>(parts: seq<seq<T>>, sep: seq<T>)
    requires |parts| > 0
    ensures Join(parts, sep) + sep == Terminated(parts, sep)
  {
    if |parts| > 1 {
      var init := parts[..|parts| - 1];
      JoinThenSeparator(init, sep);
      assert Terminated(init, sep)[..0] == [];
    } else {
      assert parts[..0] == [];
    }
  }

  /** Joining a concatenation is joining each half with one separator between. */
  lemma {:induction false} JoinAppend<T>(a: seq<seq<T>>, b: seq<seq<T>>, sep: seq<T>)
    requires |a| > 0 && |b| > 0
    ensures Join(a + b, sep) == Join(a, sep) + sep + Join(b, sep)
    decreases |b|
  {
    var ab := a + b;
    if |b| == 1 {
      assert ab[..|ab| - 1] == a;
    } else {
      var binit := b[..|b| - 1];
      assert ab[..|ab| - 1] == a + binit;
      JoinAppend(a, binit, sep);
    }
  }

  /** The joined text ends with the last part. */
  lemma {:induction false} JoinEndsWithLast<T>(parts: seq<seq<T>>, sep: seq<T>)
    requires |parts| > 0
    ensures var r := Join(parts, sep);
            var last := parts[|parts| - 1];
            |last| <= |r| && r[|r| - |last|..] == last
  {
    if |parts| > 1 {
      var r := Join(parts, sep);
      var last := parts[|parts| - 1];
      assert r == Join(parts[..|parts| - 1], sep) + sep + last;
    }
  }

  /** With a non-empty separator the joined text is empty exactly when there
      are no parts, or one part that is itself empty. */
  lemma {:induction false} JoinEmpty<T>(parts: seq<seq<T>>, sep: seq<T>)
    requires |sep| > 0
    ensures Join(parts, sep) == [] <==> |parts| == 0 || (|parts| == 1 && parts[0] == [])
  {
    if |parts| > 0 {
      JoinLength(parts, sep);
    }
  }

  /** In `x + [t] + m + y`, `t` sits at position `n == |x|` and `m` right
      after it. */
  lemma {:induction false} BlockAt<T>(x: seq<T>, t: T, m: seq<T>, y: seq<T>, n: nat)
    requires n == |x|
    ensures var s := x + ([t] + m) + y;
            && n + 1 + |m| <= |s|
            && s[n] == t
            && s[n + 1 .. n + 1 + |m|] == m
  {
    var s := x + ([t] + m) + y;
    assert s[n] == t;
    assert s[n + 1 .. n + 1 + |m|] == m;
  }

  /** Dropping the last element of `a + b`, with `b` non-empty, drops it from `b`. */
  lemma {:induction false} ConcatInit<T>(a: seq<T>, b: seq<T>)
    requires |b| > 0
    ensures (a + b)[..|a + b| - 1] == a + b[..|b| - 1]
    ensures (a + b)[|a + b| - 1] == b[|b| - 1]
  {
  }

  /** Concatenation is associative. */
  lemma ConcatAssoc<T>(x: seq<T>, y: seq<T>, z: seq<T>)
    ensures (x + y) + z == x + (y + z)
  {
  }

  /** `s` with every occurrence of `x` removed, the rest in order. */
  function Without<T(==)>(s: seq<T>, x: T): seq<T>
  {
    if |s| == 0 then []
    else Without(s[..|s| - 1], x) + (if s[|s| - 1] == x then [] else [s[|s| - 1]])
  }

  /** Removing an element that does not occur changes nothing. */
  lemma {:induction false} WithoutAbsent<T>(s: seq<T>, x: T)
    requires x !in s
    ensures Without(s, x) == s
  {
    if |s| > 0 {
      assert s[..|s| - 1] + [s[|s| - 1]] == s;
      WithoutAbsent(s[..|s| - 1], x);
    }
  }

  /** `s` with each element kept at its first occurrence only. */
  function Dedup<T(==)>(s: seq<T>): seq<T>
  {
    if |s| == 0 then []
    else if s[|s| - 1] in s[..|s| - 1] then Dedup(s[..|s| - 1])
    else Dedup(s[..|s| - 1]) + [s[|s| - 1]]
  }

  /** The elements of `Dedup(s)` are those of `s`, each once. */
  lemma {:induction false} DedupMembers<T>(s: seq<T>)
    ensures forall y :: y in Dedup(s) <==> y in s
    ensures forall i, j :: 0 <= i < j < |Dedup(s)| ==> Dedup(s)[i] != Dedup(s)[j]
  {
    if |s| > 0 {
      var init := s[..|s| - 1];
      DedupMembers(init);
      assert s == init + [s[|s| - 1]];
    }
  }
}
