/** Generic facts about ordered row collections: boolean-mask selection,
    order-preserving subsequences and keep-first de-duplication. */
module Seqs {

  /** The elements of `s` for which `keep` holds, in their original order
      (a pandas boolean mask `df[mask]`). */
  function Where<T(!new)>(s: seq<T>, keep: T -> bool): (r: seq<T>)
    ensures |r| <= |s|
  {
    if s == [] then []
    else (if keep(s[0]) then [s[0]] else []) + Where(s[1..], keep)
  }

  /** The selection holds exactly the elements that pass the mask. */
  lemma {:induction false} WhereMembers<T(!new)>(s: seq<T>, keep: T -> bool)
    ensures forall x :: x in Where(s, keep) <==> x in s && keep(x)
  {
    if s != [] {
      WhereMembers(s[1..], keep);
      assert s == [s[0]] + s[1..];
    }
  }

  /** A selection is empty exactly when no element passes the mask. */
  lemma WhereEmpty<T(!new)>(s: seq<T>, keep: T -> bool)
    ensures Where(s, keep) == [] <==> forall x :: x in s ==> !keep(x)
  {
    if Where(s, keep) != [] {
      assert Where(s, keep)[0] in Where(s, keep);
    }
  }

  /** Each element is kept as often as it occurs, or dropped every time. */
  lemma {:induction false} WhereCount<T(!new)>(s: seq<T>, keep: T -> bool)
    ensures forall x :: multiset(Where(s, keep))[x] == if keep(x) then multiset(s)[x] else 0
  {
    if s != [] {
      assert s == [s[0]] + s[1..];
      WhereCount(s[1..], keep);
    }
  }

  /** `a` can be obtained from `b` by deleting elements, keeping the order. */
  ghost predicate SubseqOf<T(!new)>(a: seq<T>, b: seq<T>)
    decreases |b|
  {
    a == [] || (b != [] && ((a[0] == b[0] && SubseqOf(a[1..], b[1..])) || SubseqOf(a, b[1..])))
  }

  /** No element occurs twice. */
  ghost predicate NoDup<T(!new)>(s: seq<T>) {
    forall i, j :: 0 <= i < j < |s| ==> s[i] != s[j]
  }

  /** Keep-first de-duplication: an element is dropped exactly when it equals
      an earlier one (`drop_duplicates(keep='first')`). */
  function Dedup<T(!new, ==)>(s: seq<T>): (r: seq<T>)
    ensures forall x :: x in r <==> x in s
    ensures NoDup(r)
  {
    if s == [] then []
    else
      var init, last := s[..|s| - 1], s[|s| - 1];
      assert s == init + [last];
      var d := Dedup(init);
      if last in init then d else d + [last]
  }

  /** Appending a new element keeps a sequence free of repeats. */
  lemma NoDupSnoc<T(!new)>(s: seq<T>, x: T)
    requires NoDup(s) && x !in s
    ensures NoDup(s + [x])
  {
    var t := s + [x];
    forall i, j | 0 <= i < j < |t| ensures t[i] != t[j] {
      if j == |s| {
        assert t[i] == s[i];
      } else {
        assert t[i] == s[i] && t[j] == s[j];
      }
    }
  }

  lemma PrefixSnoc<T(!new)>(s: seq<T>, i: nat)
    requires i < |s|
    ensures s[..i + 1] == s[..i] + [s[i]]
  {
  }

  /** Appending an element to the input appends it to the output exactly
      when it is new. */
  lemma DedupSnoc<T(!new)>(s: seq<T>, x: T)
    ensures Dedup(s + [x]) == if x in s then Dedup(s) else Dedup(s) + [x]
  {
    var t := s + [x];
    assert t[..|t| - 1] == s && t[|t| - 1] == x;
  }

  lemma {:induction false} WhereSubseq<T(!new)>(s: seq<T>, keep: T -> bool)
    ensures SubseqOf(Where(s, keep), s)
  {
    if s != [] {
      var w, rest := Where(s, keep), Where(s[1..], keep);
      WhereSubseq(s[1..], keep);
      if keep(s[0]) {
        assert w == [s[0]] + rest;
        assert w[0] == s[0] && w[1..] == rest;
      } else {
        assert w == rest;
      }
    }
  }

  /** Selecting from `[h] + rest` decides `h` first, then the rest. */
  lemma WhereCons<T(!new)>(h: T, rest: seq<T>, keep: T -> bool)
    ensures Where([h] + rest, keep) == (if keep(h) then [h] else []) + Where(rest, keep)
  {
    var s := [h] + rest;
    assert s[0] == h && s[1..] == rest;
  }

  /** When `xs` leads the selection from `rest` ahead of the selection from
      `tail`, it still does so after the same head `h` is put in front of
      both, provided `h` and `xs` are not both selected. */
  lemma WherePass<T(!new)>(h: T, rest: seq<T>, tail: seq<T>, xs: seq<T>, keep: T -> bool)
    requires Where(rest, keep) == xs + Where(tail, keep)
    requires xs == [] || !keep(h)
    ensures Where([h] + rest, keep) == xs + Where([h] + tail, keep)
  {
    WhereCons(h, rest, keep);
    WhereCons(h, tail, keep);
    if keep(h) {
      assert xs + Where(tail, keep) == Where(tail, keep);
    }
  }

  lemma {:induction false} WhereConcat<T(!new)>(a: seq<T>, b: seq<T>, keep: T -> bool)
    ensures Where(a + b, keep) == Where(a, keep) + Where(b, keep)
  {
    if a != [] {
      var h, tail := a[0], a[1..];
      assert a == [h] + tail && a + b == [h] + (tail + b);
      WhereCons(h, tail + b, keep);
      WhereCons(h, tail, keep);
      WhereConcat(tail, b, keep);
      var head := if keep(h) then [h] else [];
      assert head + (Where(tail, keep) + Where(b, keep)) == (head + Where(tail, keep)) + Where(b, keep);
    } else {
      assert a + b == b;
    }
  }

  /** Selecting from a prefix gives a prefix of the selection. */
  lemma WherePrefix<T(!new)>(a: seq<T>, b: seq<T>, keep: T -> bool)
    requires a <= b
    ensures Where(a, keep) <= Where(b, keep)
  {
    assert b == a + b[|a|..];
    WhereConcat(a, b[|a|..], keep);
  }

  lemma {:induction false} WhereKeepsAll<T(!new)>(s: seq<T>, keep: T -> bool)
    requires forall x :: x in s ==> keep(x)
    ensures Where(s, keep) == s
  {
    if s != [] {
      assert forall x :: x in s[1..] ==> x in s;
      WhereKeepsAll(s[1..], keep);
    }
  }

  /** Applying the same mask twice changes nothing. */
  lemma WhereIdempotent<T(!new)>(s: seq<T>, keep: T -> bool)
    ensures Where(Where(s, keep), keep) == Where(s, keep)
  {
    WhereMembers(s, keep);
    WhereKeepsAll(Where(s, keep), keep);
  }

  /** Two masks may be applied in either order. */
  lemma {:induction false} WhereCommute<T(!new)>(s: seq<T>, p: T -> bool, q: T -> bool)
    ensures Where(Where(s, p), q) == Where(Where(s, q), p)
  {
    if s != [] {
      WhereCommute(s[1..], p, q);
      var head := if p(s[0]) then [s[0]] else [];
      WhereConcat(head, Where(s[1..], p), q);
      var head' := if q(s[0]) then [s[0]] else [];
      WhereConcat(head', Where(s[1..], q), p);
    }
  }

  lemma {:induction false} WhereNoDup<T(!new)>(s: seq<T>, keep: T -> bool)
    requires NoDup(s)
    ensures NoDup(Where(s, keep))
  {
    if s != [] {
      assert NoDup(s[1..]) by {
        forall i, j | 0 <= i < j < |s[1..]| ensures s[1..][i] != s[1..][j] {
          assert s[1..][i] == s[i + 1] && s[1..][j] == s[j + 1];
        }
      }
      WhereNoDup(s[1..], keep);
      if keep(s[0]) {
        var w := Where(s[1..], keep);
        assert s[0] !in s[1..] by {
          forall k | 0 <= k < |s[1..]| ensures s[1..][k] != s[0] {
            assert s[1..][k] == s[k + 1];
          }
        }
        WhereMembers(s[1..], keep);
        assert s[0] !in w;
        var r := [s[0]] + w;
        forall i, j | 0 <= i < j < |r| ensures r[i] != r[j] {
          if i == 0 {
            assert r[j] == w[j - 1];
          } else {
            assert r[i] == w[i - 1] && r[j] == w[j - 1];
          }
        }
      }
    }
  }

  lemma {:induction false} SubseqTrans<T(!new)>(a: seq<T>, b: seq<T>, c: seq<T>)
    requires SubseqOf(a, b) && SubseqOf(b, c)
    ensures SubseqOf(a, c)
    decreases |c|
  {
    if a != [] {
      if b[0] == c[0] && SubseqOf(b[1..], c[1..]) {
        if a[0] == b[0] && SubseqOf(a[1..], b[1..]) {
          SubseqTrans(a[1..], b[1..], c[1..]);
        } else {
          SubseqTrans(a, b[1..], c[1..]);
        }
      } else {
        SubseqTrans(a, b, c[1..]);
      }
    }
  }

  /** A subsequence stays one when an element is added at the end of the
      larger sequence, or at the end of both. */
  lemma {:induction false} SubseqExtend<T(!new)>(a: seq<T>, b: seq<T>, x: T)
    requires SubseqOf(a, b)
    ensures SubseqOf(a, b + [x]) && SubseqOf(a + [x], b + [x])
    decreases |b|
  {
    if b == [] {
      assert a == [];
      assert ([] + [x])[1..] == [];
    } else {
      assert (b + [x])[1..] == b[1..] + [x];
      if a == [] {
        SubseqExtend(a, b[1..], x);
        assert a + [x] == [x];
      } else if a[0] == b[0] && SubseqOf(a[1..], b[1..]) {
        SubseqExtend(a[1..], b[1..], x);
        assert (a + [x])[1..] == a[1..] + [x];
      } else {
        SubseqExtend(a, b[1..], x);
      }
    }
  }

  lemma {:induction false} SubseqRefl<T(!new)>(s: seq<T>)
    ensures SubseqOf(s, s)
  {
    if s != [] {
      SubseqRefl(s[1..]);
    }
  }

  lemma {:induction false} DedupSubseq<T(!new)>(s: seq<T>)
    ensures SubseqOf(Dedup(s), s)
  {
    if s != [] {
      var init, last := s[..|s| - 1], s[|s| - 1];
      assert s == init + [last];
      DedupSubseq(init);
      SubseqExtend(Dedup(init), init, last);
    }
  }

  /** De-duplicating a prefix gives a prefix of the de-duplicated whole: the
      kept elements appear in the order of their first occurrence. */
  lemma {:induction false} DedupPrefix<T(!new)>(s: seq<T>, i: nat)
    requires i <= |s|
    ensures Dedup(s[..i]) <= Dedup(s)
    decreases |s|
  {
    if i == |s| {
      assert s[..i] == s;
    } else {
      var init := s[..|s| - 1];
      assert init[..i] == s[..i];
      DedupPrefix(init, i);
    }
  }
}
