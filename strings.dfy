/** The string primitives the page logic relies on: `String.prototype.split`
    with a one-character separator, `Array.prototype.join`, `.pop()` of a
    split, and `String.prototype.includes`. */
module Strings {

  /** `s.split(sep)`: the maximal separator-free pieces of `s`, in order; the
      empty string splits into one empty piece. */
  function Split(s: string, sep: char): (parts: seq<string>)
    ensures |parts| >= 1
    decreases |s|
  {
    if s == [] then [""]
    else if s[0] == sep then [""] + Split(s[1..], sep)
    else
      var rest := Split(s[1..], sep);
      [[s[0]] + rest[0]] + rest[1..]
  }

  /** No piece of a split contains the separator. */
  lemma {:induction false} SplitPiecesFree(s: string, sep: char)
    ensures forall p :: p in Split(s, sep) ==> sep !in p
    decreases |s|
  {
    if s != [] {
      SplitPiecesFree(s[1..], sep);
      if s[0] != sep {
        var rest := Split(s[1..], sep);
        assert rest[0] in rest;
        assert forall p :: p in rest[1..] ==> p in rest;
        assert sep !in [s[0]] + rest[0];
      }
    }
  }

  /** `parts.join(sep)`. */
  function Join(parts: seq<string>, sep: char): string
    decreases |parts|
  {
    if |parts| == 0 then ""
    else if |parts| == 1 then parts[0]
    else parts[0] + [sep] + Join(parts[1..], sep)
  }

  /** The element `.pop()` returns from a non-empty array. */
  function Last(parts: seq<string>): string
    requires |parts| >= 1
  {
    parts[|parts| - 1]
  }

  /** Joining the pieces of a split gives back the original string. */
  lemma {:induction false} JoinSplit(s: string, sep: char)
    ensures Join(Split(s, sep), sep) == s
    decreases |s|
  {
    if s == [] {
    } else if s[0] == sep {
      JoinSplit(s[1..], sep);
      var rest := Split(s[1..], sep);
      assert Split(s, sep) == [""] + rest;
      assert ([""] + rest)[1..] == rest;
    } else {
      JoinSplit(s[1..], sep);
      var rest := Split(s[1..], sep);
      var parts := [[s[0]] + rest[0]] + rest[1..];
      assert Split(s, sep) == parts;
      if |rest| == 1 {
        assert Join(rest, sep) == rest[0];
      } else {
        assert parts[1..] == rest[1..];
        assert Join(rest, sep) == rest[0] + [sep] + Join(rest[1..], sep);
        assert Join(parts, sep) == [s[0]] + rest[0] + [sep] + Join(rest[1..], sep);
      }
      assert s == [s[0]] + s[1..];
    }
  }

  /** `Split` of a string that starts with the separator. */
  lemma SplitConsSep(t: string, sep: char)
    ensures Split([sep] + t, sep) == [""] + Split(t, sep)
  {
    assert ([sep] + t)[1..] == t;
  }

  /** The inductive step of `SplitAround` for a string that starts with the
      separator. */
  lemma SplitAroundSep(a: string, b: string, sep: char)
    requires a != [] && a[0] == sep
    requires Split(a[1..] + [sep] + b, sep) == Split(a[1..], sep) + Split(b, sep)
    ensures Split(a + [sep] + b, sep) == Split(a, sep) + Split(b, sep)
  {
    var s := a + [sep] + b;
    assert s[0] == sep;
    assert s[1..] == a[1..] + [sep] + b;
    SeqAssoc([""], Split(a[1..], sep), Split(b, sep));
  }

  /** The inductive step of `SplitAround` for a string that starts with
      another character. */
  lemma SplitAroundOther(a: string, b: string, sep: char)
    requires a != [] && a[0] != sep
    requires Split(a[1..] + [sep] + b, sep) == Split(a[1..], sep) + Split(b, sep)
    ensures Split(a + [sep] + b, sep) == Split(a, sep) + Split(b, sep)
  {
    var s := a + [sep] + b;
    var ra, rb := Split(a[1..], sep), Split(b, sep);
    assert s[0] == a[0] && s[1..] == a[1..] + [sep] + b;
    SplitUnfoldOther(s, sep);
    SplitUnfoldOther(a, sep);
    ConcatHeadTail(ra, rb);
    SeqAssoc([[a[0]] + ra[0]], ra[1..], rb);
  }

  /** One unfolding of `Split` at a first character that is not the separator. */
  lemma SplitUnfoldOther(s: string, sep: char)
    requires s != [] && s[0] != sep
    ensures Split(s, sep) == [[s[0]] + Split(s[1..], sep)[0]] + Split(s[1..], sep)[1..]
  {
  }

  lemma ConcatHeadTail(x: seq<string>, y: seq<string>)
    requires x != []
    ensures (x + y)[0] == x[0] && (x + y)[1..] == x[1..] + y
  {
  }

  lemma SeqAssoc(x: seq<string>, y: seq<string>, z: seq<string>)
    ensures x + (y + z) == (x + y) + z
  {
  }

  /** Splitting at a separator occurrence splits the two sides independently. */
  lemma {:induction false} SplitAround(a: string, b: string, sep: char)
    ensures Split(a + [sep] + b, sep) == Split(a, sep) + Split(b, sep)
    decreases |a|
  {
    if a == [] {
      assert a + [sep] + b == [sep] + b;
      SplitConsSep(b, sep);
    } else {
      SplitAround(a[1..], b, sep);
      if a[0] == sep {
        SplitAroundSep(a, b, sep);
      } else {
        SplitAroundOther(a, b, sep);
      }
    }
  }

  /** A separator-free string splits into itself alone. */
  lemma {:induction false} SplitFree(p: string, sep: char)
    requires sep !in p
    ensures Split(p, sep) == [p]
    decreases |p|
  {
    if p != [] {
      assert sep !in p[1..] by {
        forall k | 0 <= k < |p[1..]| ensures p[1..][k] != sep { assert p[1..][k] == p[k + 1]; }
      }
      SplitFree(p[1..], sep);
      assert p == [p[0]] + p[1..];
    }
  }

  /** Splitting a join of separator-free pieces recovers the pieces. */
  lemma {:induction false} SplitJoin(parts: seq<string>, sep: char)
    requires |parts| >= 1
    requires forall p :: p in parts ==> sep !in p
    ensures Split(Join(parts, sep), sep) == parts
    decreases |parts|
  {
    assert parts[0] in parts;
    SplitFree(parts[0], sep);
    if |parts| > 1 {
      assert forall p :: p in parts[1..] ==> p in parts;
      SplitJoin(parts[1..], sep);
      SplitAround(parts[0], Join(parts[1..], sep), sep);
      assert parts == [parts[0]] + parts[1..];
    }
  }

  /** Joining with one more piece appends a separator and that piece. */
  lemma {:induction false} JoinSnoc(parts: seq<string>, last: string, sep: char)
    requires |parts| >= 1
    ensures Join(parts + [last], sep) == Join(parts, sep) + [sep] + last
    decreases |parts|
  {
    if |parts| > 1 {
      JoinSnoc(parts[1..], last, sep);
      assert (parts + [last])[1..] == parts[1..] + [last];
    }
  }

  /** Splitting two separator-free strings joined by one separator. */
  lemma SplitPair(a: string, b: string, sep: char)
    requires sep !in a && sep !in b
    ensures Split(a + [sep] + b, sep) == [a, b]
  {
    SplitAround(a, b, sep);
    SplitFree(a, sep);
    SplitFree(b, sep);
  }

  /** The last piece of `s.split(sep)` is the suffix of `s` after its last
      separator (all of `s` when there is none). */
  lemma {:induction false} LastPieceIsSuffix(s: string, sep: char)
    ensures var seg := Last(Split(s, sep));
      && sep !in seg
      && |seg| <= |s|
      && s[|s| - |seg|..] == seg
      && (|seg| == |s| || s[|s| - |seg| - 1] == sep)
    decreases |s|
  {
    var parts := Split(s, sep);
    assert Last(parts) in parts;
    if s != [] {
      LastPieceIsSuffix(s[1..], sep);
      var rest := Split(s[1..], sep);
      if s[0] == sep {
        assert parts == [""] + rest;
        assert Last(parts) == Last(rest);
      } else if |rest| > 1 {
        assert Last(parts) == Last(rest);
        LastPieceOfTail(s, sep);
      } else {
        JoinSplit(s[1..], sep);
        assert Last(rest) == rest[0] == s[1..];
        assert Last(parts) == [s[0]] + s[1..] == s;
      }
    }
  }

  /** The step of `LastPieceIsSuffix` when the tail holds a separator: the
      last piece of the tail stops short of the tail's start, so it is the
      same suffix of the whole string. */
  lemma LastPieceOfTail(s: string, sep: char)
    requires s != [] && |Split(s[1..], sep)| > 1
    requires var seg := Last(Split(s[1..], sep));
      && sep !in seg
      && |seg| <= |s| - 1
      && s[1..][|s| - 1 - |seg|..] == seg
      && (|seg| == |s| - 1 || s[1..][|s| - 1 - |seg| - 1] == sep)
    ensures var seg := Last(Split(s[1..], sep));
      && s[|s| - |seg|..] == seg
      && (|seg| == |s| || s[|s| - |seg| - 1] == sep)
  {
    var rest := Split(s[1..], sep);
    var seg := Last(rest);
    JoinSplit(s[1..], sep);
    assert s[1..] == rest[0] + [sep] + Join(rest[1..], sep);
    assert s[1..][|rest[0]|] == sep;
    assert s[1..][|s| - 1 - |seg| - 1] == s[|s| - |seg| - 1];
    assert s[1..][|s| - 1 - |seg|..] == s[|s| - |seg|..];
  }

  /** The last piece is empty exactly when the string is empty or ends with
      the separator. */
  lemma LastPieceEmptyIff(s: string, sep: char)
    ensures Last(Split(s, sep)) == "" <==> s == [] || s[|s| - 1] == sep
  {
    LastPieceIsSuffix(s, sep);
    var seg := Last(Split(s, sep));
    if seg != [] {
      assert s[|s| - 1] == seg[|seg| - 1];
      assert seg[|seg| - 1] in seg;
    }
  }

  /** `sub` occurs in `s` starting at index `i`. */
  predicate OccursAt(s: string, sub: string, i: nat)
  {
    i + |sub| <= |s| && s[i..i + |sub|] == sub
  }

  /** A slice of the tail is the slice of the whole shifted by one. */
  lemma SliceShift(s: string, i: nat, n: nat)
    requires 1 <= i && i + n <= |s|
    ensures s[1..][i - 1..i - 1 + n] == s[i..i + n]
  {
  }

  /** `s.includes(sub)`. */
  function Contains(s: string, sub: string): bool
    decreases |s|
  {
    if sub <= s then true
    else if s == [] then false
    else Contains(s[1..], sub)
  }

  /** `Contains` finds exactly the strings that occur somewhere in `s`. */
  lemma {:induction false} ContainsIffOccurs(s: string, sub: string)
    ensures Contains(s, sub) <==> exists i: nat :: OccursAt(s, sub, i)
    decreases |s|
  {
    if sub <= s {
      assert OccursAt(s, sub, 0);
    } else if s == [] {
      assert forall i: nat :: !OccursAt(s, sub, i);
    } else {
      ContainsIffOccurs(s[1..], sub);
      if Contains(s[1..], sub) {
        var i: nat :| OccursAt(s[1..], sub, i);
        SliceShift(s, i + 1, |sub|);
        assert OccursAt(s, sub, i + 1);
      } else {
        forall i: nat | OccursAt(s, sub, i) ensures false {
          if i > 0 {
            SliceShift(s, i, |sub|);
            assert OccursAt(s[1..], sub, i - 1);
          }
        }
      }
    }
  }
}
