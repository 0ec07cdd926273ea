/**
  The string operations of Python that the instance parser relies on:
  whitespace stripping, ASCII lower-casing, splitting on a separator,
  collapsing whitespace runs, and decimal integers in both directions.
  Only the ASCII part of Python's Unicode rules is modelled.
*/
module Text {
  import opened Wrappers

  /** The ASCII characters for which Python's str.isspace() holds: tab, line
      feed, vertical tab, form feed and carriage return (9 to 13), the four
      separators 28 to 31, and the space (32). The regular-expression class
      \s matches the same characters. */
  predicate IsSpace(c: char) {
    ('\t' <= c <= '\r') || ('\U{1C}' <= c <= ' ')
  }

  predicate NoSpace(s: string) {
    forall i :: 0 <= i < |s| ==> !IsSpace(s[i])
  }

  predicate Blank(s: string) {
    forall i :: 0 <= i < |s| ==> IsSpace(s[i])
  }

  /** Neither end of s is whitespace. */
  predicate Trimmed(s: string) {
    s == [] || (!IsSpace(s[0]) && !IsSpace(s[|s| - 1]))
  }

  /** str.lstrip() */
  function TrimLeft(s: string): (r: string)
    ensures |r| <= |s| && r == s[|s| - |r|..]
    ensures r == [] || !IsSpace(r[0])
    ensures forall i :: 0 <= i < |s| - |r| ==> IsSpace(s[i])
    decreases |s|
  {
    if s != [] && IsSpace(s[0]) then TrimLeft(s[1..]) else s
  }

  /** str.rstrip() */
  function TrimRight(s: string): (r: string)
    ensures |r| <= |s| && r == s[..|r|]
    ensures r == [] || !IsSpace(r[|r| - 1])
    ensures forall i :: |r| <= i < |s| ==> IsSpace(s[i])
    decreases |s|
  {
    if s != [] && IsSpace(s[|s| - 1]) then TrimRight(s[..|s| - 1]) else s
  }

  /** str.strip(): empty exactly when s is blank, free of whitespace at
      both ends, and s itself when s has no whitespace at either end;
      StripSlice says which part of s it is. */
  function Strip(s: string): (r: string)
    ensures Trimmed(r)
    ensures r == [] <==> Blank(s)
    ensures Trimmed(s) ==> r == s
  {
    var t := TrimLeft(s);
    var r := TrimRight(t);
    assert r != [] ==> r[0] == t[0];
    assert Blank(s) ==> t == [] by {
      if t != [] { assert t[0] == s[|s| - |t|]; }
    }
    assert r == [] ==> Blank(s) by {
      if r == [] {
        forall i | 0 <= i < |s| ensures IsSpace(s[i]) { }
      }
    }
    r
  }

  /** The stripped text is the part of s left once a blank prefix and a
      blank suffix are cut off. With Trimmed(Strip(s)) this fixes the
      result: the cut ends at the first and after the last non-whitespace
      character. */
  lemma StripSlice(s: string)
    ensures exists i, j :: 0 <= i <= j <= |s| && Strip(s) == s[i..j] && Blank(s[..i]) && Blank(s[j..])
  {
    var t := TrimLeft(s);
    var r := TrimRight(t);
    var i := |s| - |t|;
    assert t == s[i..] && r == s[i..i + |r|];
    assert Blank(s[..i]);
    assert Blank(s[i + |r|..]) by {
      var tail := s[i + |r|..];
      forall k | 0 <= k < |tail| ensures IsSpace(tail[k]) {
        assert tail[k] == t[|r| + k];
      }
    }
    assert Strip(s) == s[i..i + |r|];
  }

  function LowerChar(c: char): char {
    if 'A' <= c <= 'Z' then (c as int + 32) as char else c
  }

  /** str.lower() on ASCII letters. */
  function Lower(s: string): (r: string)
    ensures |r| == |s|
  {
    seq(|s|, i requires 0 <= i < |s| => LowerChar(s[i]))
  }

  predicate IsDigit(c: char) {
    '0' <= c <= '9'
  }

  predicate AllDigits(s: string) {
    forall i :: 0 <= i < |s| ==> IsDigit(s[i])
  }

  function DigitChar(d: nat): (c: char)
    requires d < 10
    ensures IsDigit(c) && c as int - '0' as int == d
  {
    ('0' as int + d) as char
  }

  /** The value of a string of decimal digits, most significant first. */
  function DigitsValue(s: string): nat
    requires AllDigits(s)
    decreases |s|
  {
    if s == [] then 0 else DigitsValue(s[..|s| - 1]) * 10 + (s[|s| - 1] as int - '0' as int)
  }

  /** The decimal rendering of n, as str(n) or an f-string gives it. */
  function ShowNat(n: nat): (r: string)
    ensures |r| >= 1 && AllDigits(r)
  {
    if n < 10 then [DigitChar(n)] else ShowNat(n / 10) + [DigitChar(n % 10)]
  }

  function ShowInt(i: int): string {
    if i < 0 then "-" + ShowNat(-i) else ShowNat(i)
  }

  /** int(s) for a string s without surrounding whitespace: an optional sign
      followed by one or more decimal digits. */
  function ParseInt(s: string): Option<int> {
    if |s| >= 2 && (s[0] == '-' || s[0] == '+') && AllDigits(s[1..]) then
      var v: int := DigitsValue(s[1..]);
      Some(if s[0] == '-' then -v else v)
    else if |s| >= 1 && AllDigits(s) then
      Some(DigitsValue(s))
    else
      None
  }

  /** Reading back the decimal rendering of n gives n. */
  lemma {:induction false} ShowNatRoundTrip(n: nat)
    ensures DigitsValue(ShowNat(n)) == n
  {
    if n >= 10 {
      ShowNatRoundTrip(n / 10);
      var r := ShowNat(n);
      assert r[..|r| - 1] == ShowNat(n / 10);
    }
  }

  /** Distinct numbers have distinct decimal renderings. */
  lemma ShowNatInjective(n: nat, m: nat)
    ensures ShowNat(n) == ShowNat(m) ==> n == m
  {
    ShowNatRoundTrip(n);
    ShowNatRoundTrip(m);
  }

  /** int(str(i)) == i */
  lemma ParseShowInt(i: int)
    ensures ParseInt(ShowInt(i)) == Some(i)
  {
    var s := ShowInt(i);
    if i < 0 {
      var digits := ShowNat(-i);
      ShowNatRoundTrip(-i);
      assert s == "-" + digits;
      assert s[1..] == digits;
      assert |s| >= 2 && s[0] == '-' && AllDigits(s[1..]);
    } else {
      ShowNatRoundTrip(i);
      assert s == ShowNat(i);
      assert IsDigit(s[0]);
      assert !(s[0] == '-' || s[0] == '+');
      assert |s| >= 1 && AllDigits(s);
    }
  }

  /** str.split(c): the pieces between occurrences of c, at least one piece. */
  function Split(s: string, c: char): (r: seq<string>)
    ensures |r| >= 1
    ensures forall k :: 0 <= k < |r| ==> c !in r[k]
    decreases |s|
  {
    if s == [] then [[]]
    else
      var rest := Split(s[1..], c);
      if s[0] == c then [[]] + rest else [[s[0]] + rest[0]] + rest[1..]
  }

  /** c.join(ps) */
  function Join(ps: seq<string>, c: char): string
    decreases |ps|
  {
    if ps == [] then [] else if |ps| == 1 then ps[0] else ps[0] + [c] + Join(ps[1..], c)
  }

  /** Pieces without whitespace joined by a non-whitespace separator give
      text without whitespace, which starts with the first piece. */
  lemma {:induction false} JoinNoSpace(ps: seq<string>, c: char)
    requires !IsSpace(c) && forall k :: 0 <= k < |ps| ==> NoSpace(ps[k])
    ensures NoSpace(Join(ps, c))
    ensures |ps| >= 1 ==> Join(ps, c)[..|ps[0]|] == ps[0]
    decreases |ps|
  {
    if |ps| > 1 {
      var tail := ps[1..];
      assert forall k :: 0 <= k < |tail| ==> tail[k] == ps[k + 1];
      JoinNoSpace(tail, c);
      var j := Join(ps, c);
      assert j == ps[0] + [c] + Join(tail, c);
      forall i | 0 <= i < |j| ensures !IsSpace(j[i]) {
        if i < |ps[0]| {
          assert j[i] == ps[0][i];
        } else if i > |ps[0]| {
          assert j[i] == Join(tail, c)[i - |ps[0]| - 1];
        }
      }
    }
  }

  /** lstrip() cuts s into a blank prefix and the rest. */
  lemma TrimLeftSplit(s: string)
    ensures s == s[..|s| - |TrimLeft(s)|] + TrimLeft(s) && Blank(s[..|s| - |TrimLeft(s)|])
  {
    var t := TrimLeft(s);
    var n := |s| - |t|;
    var w := s[..n];
    assert s == w + t by {
      assert t == s[n..];
    }
    forall i | 0 <= i < |w| ensures IsSpace(w[i]) {
      assert w[i] == s[i];
    }
  }

  /** rstrip() cuts s into the rest and a blank suffix. */
  lemma TrimRightSplit(s: string)
    ensures s == TrimRight(s) + s[|TrimRight(s)|..] && Blank(s[|TrimRight(s)|..])
  {
    var t := TrimRight(s);
    var w := s[|t|..];
    assert s == t + w by {
      assert t == s[..|t|];
    }
    forall i | 0 <= i < |w| ensures IsSpace(w[i]) {
      assert w[i] == s[|t| + i];
    }
  }

  /** When rstrip() leaves text ending in c, s is what precedes that c,
      then c, then blanks. */
  lemma PeelRight(s: string, c: char) returns (rest: string, w: string)
    requires TrimRight(s) != [] && TrimRight(s)[|TrimRight(s)| - 1] == c
    ensures rest == TrimRight(s)[..|TrimRight(s)| - 1]
    ensures Blank(w) && s == rest + [c] + w
  {
    var t := TrimRight(s);
    TrimRightSplit(s);
    w := s[|t|..];
    rest := t[..|t| - 1];
    assert t == rest + [c];
  }

  /** When lstrip() leaves text starting with c, s is blanks, then c, then
      what follows that c. */
  lemma PeelLeft(s: string, c: char) returns (w: string, rest: string)
    requires TrimLeft(s) != [] && TrimLeft(s)[0] == c
    ensures rest == TrimLeft(s)[1..]
    ensures Blank(w) && s == w + ([c] + rest)
  {
    var t := TrimLeft(s);
    TrimLeftSplit(s);
    w := s[..|s| - |t|];
    rest := t[1..];
    FirstSplit(t, c);
  }

  lemma FirstSplit(t: string, c: char)
    requires t != [] && t[0] == c
    ensures t == [c] + t[1..]
  {
  }

  /** Leading whitespace before text that does not start with whitespace is
      what lstrip() removes. */
  lemma {:induction false} TrimLeftBlankPrefix(w: string, a: string)
    requires Blank(w) && (a == [] || !IsSpace(a[0]))
    ensures TrimLeft(w + a) == a
    decreases |w|
  {
    if w == [] {
      assert w + a == a;
    } else {
      assert (w + a)[1..] == w[1..] + a;
      TrimLeftBlankPrefix(w[1..], a);
    }
  }

  /** Trailing whitespace after text that does not end with whitespace is
      what rstrip() removes. */
  lemma {:induction false} TrimRightBlankSuffix(a: string, w: string)
    requires Blank(w) && (a == [] || !IsSpace(a[|a| - 1]))
    ensures TrimRight(a + w) == a
    decreases |w|
  {
    if w == [] {
      assert a + w == a;
    } else {
      var s := a + w;
      assert s[..|s| - 1] == a + w[..|w| - 1];
      TrimRightBlankSuffix(a, w[..|w| - 1]);
    }
  }

  /** Joining the pieces of a split gives back the text. */
  lemma {:induction false} JoinSplit(s: string, c: char)
    ensures Join(Split(s, c), c) == s
  {
    if s != [] {
      var rest := Split(s[1..], c);
      JoinSplit(s[1..], c);
      if s[0] == c {
        assert Split(s, c) == [[]] + rest;
        assert ([[]] + rest)[1..] == rest;
      } else {
        var r := Split(s, c);
        assert r == [[s[0]] + rest[0]] + rest[1..];
        if |rest| > 1 {
          assert r[1..] == rest[1..];
          assert Join(rest, c) == rest[0] + [c] + Join(rest[1..], c);
        }
      }
    }
  }

  lemma {:induction false} SplitWithout(a: string, c: char)
    requires c !in a
    ensures Split(a, c) == [a]
    decreases |a|
  {
    if a != [] {
      SplitWithout(a[1..], c);
      assert [a[0]] + a[1..] == a;
    }
  }

  lemma {:induction false} SplitAt(a: string, b: string, c: char)
    requires c !in a
    ensures Split(a + [c] + b, c) == [a] + Split(b, c)
    decreases |a|
  {
    var s := a + [c] + b;
    if a == [] {
      assert s[1..] == b;
    } else {
      assert s[1..] == a[1..] + [c] + b;
      SplitAt(a[1..], b, c);
      assert [a[0]] + a[1..] == a;
    }
  }

  /** Splitting the join of separator-free pieces gives back the pieces. */
  lemma {:induction false} SplitJoin(ps: seq<string>, c: char)
    requires |ps| >= 1
    requires forall k :: 0 <= k < |ps| ==> c !in ps[k]
    ensures Split(Join(ps, c), c) == ps
    decreases |ps|
  {
    if |ps| == 1 {
      SplitWithout(ps[0], c);
    } else {
      SplitJoin(ps[1..], c);
      SplitAt(ps[0], Join(ps[1..], c), c);
      assert [ps[0]] + ps[1..] == ps;
    }
  }

  /** re.sub(r"\s+", " ", s): every maximal run of whitespace becomes one
      space; text without whitespace is left as it is. */
  function Collapse(s: string): (r: string)
    ensures NoSpace(s) ==> r == s
    decreases |s|
  {
    if s == [] then []
    else if IsSpace(s[0]) then " " + Collapse(TrimLeft(s[1..]))
    else [s[0]] + Collapse(s[1..])
  }

  /** The results of f on the elements of xs, one after another. */
  function Concat<T, U>(xs: seq<T>, f: T -> seq<U>): seq<U>
    decreases |xs|
  {
    if xs == [] then [] else f(xs[0]) + Concat(xs[1..], f)
  }

  lemma {:induction false} ConcatSnoc<T, U>(xs: seq<T>, x: T, f: T -> seq<U>)
    ensures Concat(xs + [x], f) == Concat(xs, f) + f(x)
    decreases |xs|
  {
    if xs == [] {
      assert [] + [x] == [x];
      assert [x][1..] == [];
    } else {
      assert (xs + [x])[0] == xs[0];
      assert (xs + [x])[1..] == xs[1..] + [x];
      ConcatSnoc(xs[1..], x, f);
    }
  }

  /** When f gives at most one result, all of them satisfying P, so does
      their concatenation. */
  lemma {:induction false} ConcatAll<T, U>(xs: seq<T>, f: T -> seq<U>, P: U -> bool)
    requires forall x :: |f(x)| <= 1
    requires forall x, k :: 0 <= k < |f(x)| ==> P(f(x)[k])
    ensures |Concat(xs, f)| <= |xs|
    ensures forall k :: 0 <= k < |Concat(xs, f)| ==> P(Concat(xs, f)[k])
    decreases |xs|
  {
    if xs != [] {
      var head, rest := f(xs[0]), Concat(xs[1..], f);
      ConcatAll(xs[1..], f, P);
      forall k | 0 <= k < |head + rest| ensures P((head + rest)[k]) {
        if k < |head| {
          assert (head + rest)[k] == head[k];
        } else {
          assert (head + rest)[k] == rest[k - |head|];
        }
      }
    }
  }

  /** When f maps every element of xs to itself alone, the concatenation
      is xs. */
  lemma {:induction false} ConcatSingles<T>(xs: seq<T>, f: T -> seq<T>)
    requires forall k :: 0 <= k < |xs| ==> f(xs[k]) == [xs[k]]
    ensures Concat(xs, f) == xs
    decreases |xs|
  {
    if xs != [] {
      var tail := xs[1..];
      assert forall k :: 0 <= k < |tail| ==> tail[k] == xs[k + 1];
      ConcatSingles(tail, f);
      assert xs == [xs[0]] + tail;
    }
  }

  /** The positions of the elements of xs that satisfy f. */
  function Where<T>(xs: seq<T>, f: T -> bool): set<nat> {
    set k: nat | k < |xs| && f(xs[k])
  }

  lemma WhereEmpty<T>(xs: seq<T>, f: T -> bool)
    requires xs == []
    ensures Where(xs, f) == {}
  {
    assert forall k: nat :: k !in Where(xs, f);
  }

  /** One more element adds its own position when it satisfies f. */
  lemma WhereSnoc<T>(xs: seq<T>, f: T -> bool)
    requires xs != []
    ensures |Where(xs, f)| == |Where(xs[..|xs| - 1], f)| + (if f(xs[|xs| - 1]) then 1 else 0)
  {
    var init := xs[..|xs| - 1];
    var a := Where(init, f);
    var extra: set<nat> := if f(xs[|xs| - 1]) then {|init|} else {};
    forall k: nat ensures k in Where(xs, f) <==> k in a + extra {
      if k < |init| {
        assert xs[k] == init[k];
      }
    }
    assert Where(xs, f) == a + extra;
    assert |init| !in a;
  }

  /** When f gives one result exactly for the elements satisfying g, the
      concatenation has one result per such element. */
  lemma {:induction false} ConcatCount<T, U>(xs: seq<T>, f: T -> seq<U>, g: T -> bool)
    requires forall x :: |f(x)| == if g(x) then 1 else 0
    ensures |Concat(xs, f)| == |Where(xs, g)|
    decreases |xs|
  {
    if xs == [] {
      WhereEmpty(xs, g);
    } else {
      var init, x := xs[..|xs| - 1], xs[|xs| - 1];
      ConcatCount(init, f, g);
      WhereSnoc(xs, g);
      assert xs == init + [x];
      ConcatSnoc(init, x, f);
    }
  }

  /** [p.strip() for p in ps if p.strip()] */
  function NonBlankStripped(ps: seq<string>): seq<string> {
    Concat(ps, Kept)
  }

  /** What one piece contributes: its stripped text, unless that is empty. */
  function Kept(p: string): seq<string> {
    var t := Strip(p);
    if t == [] then [] else [t]
  }

  predicate NonBlank(p: string) {
    Strip(p) != []
  }

  predicate Clean(t: string) {
    t != [] && Trimmed(t)
  }

  /** One piece contributes at most one non-empty trimmed text, and one
      exactly when it is not blank. */
  lemma KeptClean(p: string)
    ensures |Kept(p)| == if NonBlank(p) then 1 else 0
    ensures forall k :: 0 <= k < |Kept(p)| ==> Clean(Kept(p)[k])
  {
  }

  /** There are no more kept pieces than pieces, and each is non-empty and
      trimmed. */
  lemma NonBlankStrippedClean(ps: seq<string>)
    ensures |NonBlankStripped(ps)| <= |ps|
    ensures forall k :: 0 <= k < |NonBlankStripped(ps)| ==>
      NonBlankStripped(ps)[k] != [] && Trimmed(NonBlankStripped(ps)[k])
  {
    forall p ensures |Kept(p)| <= 1 && forall k :: 0 <= k < |Kept(p)| ==> Clean(Kept(p)[k]) {
      KeptClean(p);
    }
    ConcatAll(ps, Kept, Clean);
  }

  /** A list of non-empty trimmed pieces is kept whole. */
  lemma NonBlankStrippedKeepsClean(ps: seq<string>)
    requires forall k :: 0 <= k < |ps| ==> ps[k] != [] && Trimmed(ps[k])
    ensures NonBlankStripped(ps) == ps
  {
    forall k | 0 <= k < |ps| ensures Kept(ps[k]) == [ps[k]] {
      assert Strip(ps[k]) == ps[k];
    }
    ConcatSingles(ps, Kept);
  }

  /** The pieces are processed in order: one more piece appends what that
      piece contributes. */
  lemma NonBlankStrippedSnoc(ps: seq<string>, p: string)
    ensures NonBlankStripped(ps + [p]) == NonBlankStripped(ps) + Kept(p)
  {
    ConcatSnoc(ps, p, Kept);
  }

  /** One result per piece whose stripped text is not empty. */
  lemma NonBlankStrippedCount(ps: seq<string>)
    ensures |NonBlankStripped(ps)| == |Where(ps, NonBlank)|
  {
    forall p ensures |Kept(p)| == if NonBlank(p) then 1 else 0 {
      KeptClean(p);
    }
    ConcatCount(ps, Kept, NonBlank);
  }
}
