/** The pieces of Rust's string library the pairing URL relies on. */
module Text {
  import opened Prelude

  function IndexOf(s: string, c: char): (i: nat)
    ensures i <= |s|
    ensures i < |s| ==> s[i] == c
    ensures forall k | 0 <= k < i :: s[k] != c
  {
    if s == [] || s[0] == c then 0 else 1 + IndexOf(s[1..], c)
  }

  /** `str::split` on a character: at least one piece. */
  function Split(s: string, c: char): (pieces: seq<string>)
    ensures pieces != []
    ensures forall p | p in pieces :: c !in p
    decreases |s|
  {
    var i := IndexOf(s, c);
    if i == |s| then [s] else [s[..i]] + Split(s[i + 1..], c)
  }

  /** Pieces put together with a separator between them. */
  function Join(pieces: seq<string>, c: char): string
    requires pieces != []
  {
    if |pieces| == 1 then pieces[0] else Join(Front(pieces), c) + [c] + Last(pieces)
  }

  lemma SplitAbsent(s: string, c: char)
    requires c !in s
    ensures Split(s, c) == [s]
  {
    if IndexOf(s, c) < |s| {
      assert false;
    }
  }

  /** The first piece ends at the first separator. */
  lemma SplitFirst(a: string, c: char, b: string)
    requires c !in a
    ensures Split(a + [c] + b, c) == [a] + Split(b, c)
  {
    var s := a + [c] + b;
    assert s[..|a|] == a && s[|a| + 1..] == b;
    assert s[|a|] == c && forall k | 0 <= k < |a| :: s[k] == a[k] != c;
    assert IndexOf(s, c) == |a|;
  }

  lemma {:induction false} SplitSnoc(a: string, c: char, b: string)
    requires c !in b
    ensures Split(a + [c] + b, c) == Split(a, c) + [b]
    decreases |a|
  {
    SplitAbsent(b, c);
    if c !in a {
      SplitAbsent(a, c);
      SplitFirst(a, c, b);
    } else {
      var i := IndexOf(a, c);
      var head, tail := a[..i], a[i + 1..];
      assert c !in head;
      assert a == head + [c] + tail;
      assert a + [c] + b == head + [c] + (tail + [c] + b);
      SplitFirst(head, c, tail);
      SplitFirst(head, c, tail + [c] + b);
      SplitSnoc(tail, c, b);
    }
  }

  /** Every piece is made of the characters of the whole. */
  lemma {:induction false} SplitSubset(s: string, c: char, d: char)
    requires d !in s
    ensures forall p | p in Split(s, c) :: d !in p
    decreases |s|
  {
    var i := IndexOf(s, c);
    if i < |s| {
      SplitSubset(s[i + 1..], c, d);
    }
  }

  lemma {:induction false} JoinAbsent(pieces: seq<string>, c: char, d: char)
    requires pieces != [] && d != c && forall i | 0 <= i < |pieces| :: d !in pieces[i]
    ensures d !in Join(pieces, c)
  {
    if |pieces| > 1 {
      JoinAbsent(Front(pieces), c, d);
    }
  }

  lemma JoinThree(x: string, y: string, z: string, c: char)
    ensures Join([x, y, z], c) == x + [c] + y + [c] + z
  {
    assert Front([x, y, z]) == [x, y];
    assert Front([x, y]) == [x];
    assert Join([x, y], c) == x + [c] + y;
  }

  lemma JoinSnoc(pieces: seq<string>, piece: string, c: char)
    requires pieces != []
    ensures Join(pieces + [piece], c) == Join(pieces, c) + ([c] + piece)
  {
    assert Front(pieces + [piece]) == pieces;
  }

  /** More pieces only add text that begins with the separator. */
  lemma {:induction false} JoinMore(pieces: seq<string>, more: seq<string>, c: char) returns (tail: string)
    requires pieces != []
    ensures Join(pieces + more, c) == Join(pieces, c) + tail
    ensures tail == [] || tail[0] == c
  {
    if more == [] {
      assert pieces + more == pieces;
      tail := [];
    } else {
      var t := JoinMore(pieces, Front(more), c);
      assert Front(pieces + more) == pieces + Front(more);
      tail := t + [c] + Last(more);
    }
  }

  /** Splitting undoes joining when no piece holds the separator. */
  lemma {:induction false} SplitJoin(pieces: seq<string>, c: char)
    requires pieces != [] && forall i | 0 <= i < |pieces| :: c !in pieces[i]
    ensures Split(Join(pieces, c), c) == pieces
  {
    if |pieces| == 1 {
      SplitAbsent(pieces[0], c);
    } else {
      SplitJoin(Front(pieces), c);
      SplitSnoc(Join(Front(pieces), c), c, Last(pieces));
      assert pieces == Front(pieces) + [Last(pieces)];
    }
  }

  /** Joining undoes splitting. */
  lemma {:induction false} JoinSplit(s: string, c: char)
    ensures Join(Split(s, c), c) == s
    decreases |s|
  {
    var i := IndexOf(s, c);
    if i < |s| {
      JoinSplit(s[i + 1..], c);
      JoinCons(s[..i], Split(s[i + 1..], c), c);
      assert s == s[..i] + [c] + s[i + 1..];
    }
  }

  lemma {:induction false} JoinCons(piece: string, pieces: seq<string>, c: char)
    requires pieces != []
    ensures Join([piece] + pieces, c) == piece + [c] + Join(pieces, c)
  {
    var all := [piece] + pieces;
    if |pieces| == 1 {
      assert Front(all) == [piece];
    } else {
      assert Front(all) == [piece] + Front(pieces);
      JoinCons(piece, Front(pieces), c);
    }
  }

  predicate IsDigit(c: char) {
    '0' <= c <= '9'
  }

  function DigitOf(n: nat): (c: char)
    requires n < 10
    ensures IsDigit(c)
  {
    '0' + n as char
  }

  predicate AllDigits(s: string) {
    forall i | 0 <= i < |s| :: IsDigit(s[i])
  }

  /** The decimal text of a number. */
  function Decimal(n: nat): (s: string)
    ensures s != [] && AllDigits(s)
    ensures |s| > 1 ==> s[0] != '0'
    ensures n < 10 ==> |s| == 1
  {
    if n < 10 then [DigitOf(n)] else Decimal(n / 10) + [DigitOf(n % 10)]
  }

  function Value(s: string): nat
    requires AllDigits(s)
  {
    if s == [] then 0 else 10 * Value(Front(s)) + (Last(s) - '0') as nat
  }

  lemma {:induction false} DecimalRoundTrip(n: nat)
    ensures Value(Decimal(n)) == n
  {
    if n >= 10 {
      DecimalRoundTrip(n / 10);
      assert Front(Decimal(n)) == Decimal(n / 10);
    } else {
      assert Front([DigitOf(n)]) == [];
    }
  }

  /** Digits without a leading zero are the text of their value. */
  lemma {:induction false} DecimalIsCanonical(s: string)
    requires s != [] && AllDigits(s) && (|s| > 1 ==> s[0] != '0')
    ensures Decimal(Value(s)) == s
    ensures |s| > 1 ==> Value(s) >= 10
  {
    if |s| == 1 {
      assert Value(Front(s)) == 0;
      assert s == [DigitOf(Value(s))];
    } else {
      var front := Front(s);
      assert front[0] == s[0];
      DecimalIsCanonical(front);
      if |front| == 1 {
        assert Front(front) == [];
        assert Value(front) >= 1;
      }
      assert Value(s) / 10 == Value(front);
      assert s == front + [Last(s)];
    }
  }

  /** `str::parse` for an unsigned integer: digits, with an optional plus sign. */
  function ParseUnsigned(s: string, max: nat): Option<nat> {
    var digits := if s != [] && s[0] == '+' then s[1..] else s;
    if digits != [] && AllDigits(digits) && Value(digits) <= max then Some(Value(digits)) else None
  }

  lemma UnsignedRoundTrip(n: nat, max: nat)
    requires n <= max
    ensures ParseUnsigned(Decimal(n), max) == Some(n)
  {
    DecimalRoundTrip(n);
    assert IsDigit(Decimal(n)[0]);
  }

  /** The first position at which `pattern` occurs, `|s|` when it does not. */
  function Find(s: string, pattern: string): (i: nat)
    ensures i <= |s|
    ensures i < |s| ==> pattern <= s[i..]
    ensures forall k | 0 <= k < i :: !(pattern <= s[k..])
  {
    if s == [] then 0 else if pattern <= s then 0 else
      var i := 1 + Find(s[1..], pattern);
      assert forall k | 0 < k < |s| :: s[k..] == s[1..][k - 1..];
      i
  }

  /** `s.split(pattern).nth(1)` for a non-empty pattern. */
  function SecondPiece(s: string, pattern: string): Option<string>
    requires pattern != []
  {
    var i := Find(s, pattern);
    if i == |s| then None
    else
      var rest := s[i + |pattern|..];
      Some(rest[..Find(rest, pattern)])
  }
}
