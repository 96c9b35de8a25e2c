/**
 * The parts of Go's `strings` package that the migration rules rely on,
 * restricted to the one-character separators and patterns they are called
 * with: `strings.Split`, `strings.Cut`, `strings.ReplaceAll` and
 * `strings.Join` (the last with an arbitrary separator string).
 */
module GoStrings {

  /** `strings.Split(s, string(sep))`: the maximal separator-free pieces of
      `s`, in order. An empty `s` gives `[""]` and two adjacent separators
      give an empty piece between them. */
  function Split(s: string, sep: char): (r: seq<string>)
    ensures |r| >= 1
    ensures forall i :: 0 <= i < |r| ==> sep !in r[i]
    ensures sep !in s ==> r == [s]
    ensures sep in s ==> |r| >= 2
    decreases |s|
  {
    if s == [] then [""]
    else
      var rest := Split(s[1..], sep);
      assert s == [s[0]] + s[1..];
      if s[0] == sep then [""] + rest
      else [[s[0]] + rest[0]] + rest[1..]
  }

  /** `strings.Join(parts, sep)`: the parts with `sep` between neighbours
      and none after the last; no parts give the empty string. */
  function Join(parts: seq<string>, sep: string): (r: string)
    ensures parts == [] ==> r == ""
    ensures |parts| > 0 ==> parts[0] <= r
  {
    if |parts| == 0 then ""
    else if |parts| == 1 then parts[0]
    else parts[0] + sep + Join(parts[1..], sep)
  }

  /** `strings.Cut(s, string(sep))`: the text before the first `sep`, the
      text after it, and whether there was one; `(s, "", false)` when `s`
      has no `sep`. */
  function Cut(s: string, sep: char): (r: (string, string, bool))
    ensures r.2 <==> sep in s
    ensures sep !in r.0
    ensures r.2 ==> s == r.0 + [sep] + r.1
    ensures !r.2 ==> r.0 == s && r.1 == ""
    decreases |s|
  {
    if s == [] then (s, "", false)
    else if s[0] == sep then ("", s[1..], true)
    else
      var r := Cut(s[1..], sep);
      assert s == [s[0]] + s[1..];
      ([s[0]] + r.0, r.1, r.2)
  }

  /** `strings.ReplaceAll(s, string(pat), rep)`: every `pat` in `s`
      replaced by `rep`, everything else kept in order. */
  function ReplaceAll(s: string, pat: char, rep: string): (r: string)
    ensures pat !in s ==> r == s
    ensures forall x :: x in r ==> (x in s && x != pat) || x in rep
    decreases |s|
  {
    if s == [] then ""
    else
      assert s == [s[0]] + s[1..];
      (if s[0] == pat then rep else [s[0]]) + ReplaceAll(s[1..], pat, rep)
  }

  /** The pieces of every element of `parts`, split separately and laid end to end. */
  function SplitEach(parts: seq<string>, sep: char): seq<string>
  {
    if parts == [] then [] else Split(parts[0], sep) + SplitEach(parts[1..], sep)
  }

  /** Splitting and rejoining with the same separator gives back the input. */
  lemma {:induction false} JoinSplit(s: string, sep: char)
    ensures Join(Split(s, sep), [sep]) == s
  {
    ReplaceAllIsJoinSplit(s, sep, [sep]);
    ReplaceAllSelf(s, sep);
  }

  /** Replacing a character by itself changes nothing. */
  lemma {:induction false} ReplaceAllSelf(s: string, pat: char)
    ensures ReplaceAll(s, pat, [pat]) == s
    decreases |s|
  {
    if s != [] {
      ReplaceAllSelf(s[1..], pat);
      assert s == [s[0]] + s[1..];
    }
  }

  /** Splitting text that starts with one character, in terms of splitting the rest. */
  lemma SplitCons(x: char, t: string, sep: char)
    ensures Split([x] + t, sep) ==
      if x == sep then [""] + Split(t, sep)
      else [[x] + Split(t, sep)[0]] + Split(t, sep)[1..]
  {
    assert ([x] + t)[0] == x && ([x] + t)[1..] == t;
  }

  /** A separator splits the text around it into the pieces of each side. */
  lemma {:induction false} SplitConcat(a: string, b: string, sep: char)
    ensures Split(a + [sep] + b, sep) == Split(a, sep) + Split(b, sep)
    decreases |a|
  {
    if a == [] {
      assert a + [sep] + b == [sep] + b;
      SplitCons(sep, b, sep);
    } else {
      SplitConcat(a[1..], b, sep);
      SplitConcatStep(a[0], a[1..], b, sep);
      assert [a[0]] + a[1..] == a;
    }
  }

  /** One step of SplitConcat: putting a character in front of the left side. */
  lemma SplitConcatStep(x: char, a: string, b: string, sep: char)
    requires Split(a + [sep] + b, sep) == Split(a, sep) + Split(b, sep)
    ensures Split([x] + a + [sep] + b, sep) == Split([x] + a, sep) + Split(b, sep)
  {
    Associative([x], a + [sep], b);
    Associative([x], a, [sep]);
    if x == sep {
      SeparatorFirst(a + [sep] + b, Split(a, sep), Split(b, sep), sep);
      SeparatorFirst(a, Split(a, sep), [], sep);
    } else {
      PieceFirst(x, a + [sep] + b, Split(a, sep), Split(b, sep), sep);
      PieceFirst(x, a, Split(a, sep), [], sep);
    }
  }

  /** A leading separator adds an empty piece in front of the split of `t`. */
  lemma SeparatorFirst(t: string, left: seq<string>, right: seq<string>, sep: char)
    requires Split(t, sep) == left + right
    ensures Split([sep] + t, sep) == [""] + left + right
  {
    SplitCons(sep, t, sep);
    Associative([""], left, right);
  }

  /** Any other leading character joins the first piece of the split of `t`. */
  lemma PieceFirst(x: char, t: string, left: seq<string>, right: seq<string>, sep: char)
    requires x != sep && |left| > 0
    requires Split(t, sep) == left + right
    ensures Split([x] + t, sep) == [[x] + left[0]] + left[1..] + right
  {
    var both := left + right;
    assert both[0] == left[0] && both[1..] == left[1..] + right;
    SplitCons(x, t, sep);
    Associative([[x] + left[0]], left[1..], right);
  }

  /** Replacing in a concatenation replaces in each side. */
  lemma {:induction false} ReplaceAllConcat(a: string, b: string, pat: char, rep: string)
    ensures ReplaceAll(a + b, pat, rep) == ReplaceAll(a, pat, rep) + ReplaceAll(b, pat, rep)
    decreases |a|
  {
    if a == [] {
      assert a + b == b;
    } else {
      ReplaceAllConcat(a[1..], b, pat, rep);
      ReplaceAllConcatStep(a[0], a[1..], b, pat, rep);
      assert [a[0]] + a[1..] == a;
    }
  }

  /** One step of ReplaceAllConcat: putting a character in front of the left side. */
  lemma ReplaceAllConcatStep(x: char, a: string, b: string, pat: char, rep: string)
    requires ReplaceAll(a + b, pat, rep) == ReplaceAll(a, pat, rep) + ReplaceAll(b, pat, rep)
    ensures ReplaceAll([x] + a + b, pat, rep) == ReplaceAll([x] + a, pat, rep) + ReplaceAll(b, pat, rep)
  {
    Associative([x], a, b);
    ReplaceAllCons(x, a + b, pat, rep);
    ReplaceAllCons(x, a, pat, rep);
    Associative(if x == pat then rep else [x], ReplaceAll(a, pat, rep), ReplaceAll(b, pat, rep));
  }

  /** Replacing in text that starts with one character. */
  lemma ReplaceAllCons(x: char, t: string, pat: char, rep: string)
    ensures ReplaceAll([x] + t, pat, rep) == (if x == pat then rep else [x]) + ReplaceAll(t, pat, rep)
  {
    assert ([x] + t)[0] == x && ([x] + t)[1..] == t;
  }

  /** Splitting a join gives the pieces of the joined parts, in order. */
  lemma {:induction false} SplitJoin(parts: seq<string>, sep: char)
    requires |parts| > 0
    ensures Split(Join(parts, [sep]), sep) == SplitEach(parts, sep)
  {
    if |parts| > 1 {
      SplitJoin(parts[1..], sep);
      SplitConcat(parts[0], Join(parts[1..], [sep]), sep);
    }
  }

  /** Parts that hold no separator are their own pieces. */
  lemma {:induction false} SplitEachSeparatorFree(parts: seq<string>, sep: char)
    requires forall i :: 0 <= i < |parts| ==> sep !in parts[i]
    ensures SplitEach(parts, sep) == parts
  {
    if parts != [] {
      SplitEachSeparatorFree(parts[1..], sep);
    }
  }

  /** Joining separator-free parts and splitting again gives back the parts. */
  lemma SplitJoinInverse(parts: seq<string>, sep: char)
    requires |parts| > 0
    requires forall i :: 0 <= i < |parts| ==> sep !in parts[i]
    ensures Split(Join(parts, [sep]), sep) == parts
  {
    SplitJoin(parts, sep);
    SplitEachSeparatorFree(parts, sep);
  }

  /** `ReplaceAll` with a one-character pattern is split-then-join. */
  lemma {:induction false} ReplaceAllIsJoinSplit(s: string, pat: char, rep: string)
    ensures ReplaceAll(s, pat, rep) == Join(Split(s, pat), rep)
    decreases |s|
  {
    if s != [] {
      ReplaceAllIsJoinSplit(s[1..], pat, rep);
      ReplaceAllIsJoinSplitStep(s[0], s[1..], pat, rep);
      assert [s[0]] + s[1..] == s;
    }
  }

  /** One step of ReplaceAllIsJoinSplit: putting a character in front. */
  lemma ReplaceAllIsJoinSplitStep(x: char, t: string, pat: char, rep: string)
    requires ReplaceAll(t, pat, rep) == Join(Split(t, pat), rep)
    ensures ReplaceAll([x] + t, pat, rep) == Join(Split([x] + t, pat), rep)
  {
    var rest := Split(t, pat);
    assert ReplaceAll([x] + t, pat, rep) == (if x == pat then rep else [x]) + Join(rest, rep) by {
      ReplaceAllCons(x, t, pat, rep);
    }
    if x == pat {
      assert Split([x] + t, pat) == [""] + rest by {
        SplitCons(x, t, pat);
      }
      JoinCons("", rest, rep);
    } else {
      var head, more := rest[0], rest[1..];
      assert Split([x] + t, pat) == [[x] + head] + more by {
        SplitCons(x, t, pat);
      }
      assert Join(rest, rep) == if more == [] then head else head + rep + Join(more, rep) by {
        assert rest == [head] + more;
        JoinCons(head, more, rep);
      }
      JoinCons([x] + head, more, rep);
      if more != [] {
        Associative([x], head + rep, Join(more, rep));
        Associative([x], head, rep);
      }
    }
  }

  /** Joining parts that start with a given one. */
  lemma JoinCons(first: string, more: seq<string>, sep: string)
    ensures Join([first] + more, sep) == if more == [] then first else first + sep + Join(more, sep)
  {
    assert ([first] + more)[0] == first && ([first] + more)[1..] == more;
  }

  /** Cutting text that starts with a cut-free prefix keeps that prefix. */
  lemma {:induction false} CutPrefix(a: string, b: string, sep: char)
    requires sep !in a
    ensures Cut(a + b, sep).0 == a + Cut(b, sep).0
    decreases |a|
  {
    if a == [] {
      assert a + b == b;
    } else {
      CutPrefix(a[1..], b, sep);
      assert a[0] != sep by { assert a[0] in a; }
      CutPrefixStep(a[0], a[1..], b, sep);
      assert [a[0]] + a[1..] == a;
    }
  }

  /** One step of CutPrefix: putting a non-separator in front of the prefix. */
  lemma CutPrefixStep(x: char, a: string, b: string, sep: char)
    requires x != sep
    requires Cut(a + b, sep).0 == a + Cut(b, sep).0
    ensures Cut([x] + a + b, sep).0 == [x] + a + Cut(b, sep).0
  {
    var s, t := [x] + a + b, a + b;
    Associative([x], a, b);
    CutCons(s, x, t, sep);
    Associative([x], a, Cut(b, sep).0);
  }

  /** Cutting text that starts with a character other than the separator. */
  lemma CutCons(s: string, x: char, t: string, sep: char)
    requires x != sep && s == [x] + t
    ensures Cut(s, sep).0 == [x] + Cut(t, sep).0
  {
    assert s[0] == x && s[1..] == t;
  }

  /** A character missing from the text is missing from every piece of it. */
  lemma {:induction false} SplitExcludes(s: string, sep: char, x: char)
    requires x !in s
    ensures forall i :: 0 <= i < |Split(s, sep)| ==> x !in Split(s, sep)[i]
    decreases |s|
  {
    if s != [] {
      assert s == [s[0]] + s[1..];
      SplitExcludes(s[1..], sep, x);
      SplitCons(s[0], s[1..], sep);
    }
  }

  /** A character in neither the parts nor the separator is not in the join. */
  lemma {:induction false} JoinExcludes(parts: seq<string>, sep: string, x: char)
    requires x !in sep
    requires forall i :: 0 <= i < |parts| ==> x !in parts[i]
    ensures x !in Join(parts, sep)
  {
    if |parts| > 1 {
      JoinExcludes(parts[1..], sep, x);
    }
  }

  /** Concatenation is associative. */
  lemma Associative<T>(a: seq<T>, b: seq<T>, c: seq<T>)
    ensures a + (b + c) == (a + b) + c
  {
  }
}
