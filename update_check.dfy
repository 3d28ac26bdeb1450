/**
 * `isNewerVersion` of src/utils/checkforupdate.ts: is the published version
 * `latest` newer than the running version `current`? Both are split on `.`
 * and each piece read with `Number`; a piece that is not a number is NaN.
 */
module UpdateCheck {
  import opened Wrappers
  import opened Text
  import opened Numbers

  /** `v.split('.').map(Number)`. */
  function PartsOf(v: string): (ps: seq<Option<Decimal>>)
    ensures |ps| == |Split(v, '.')|
  {
    NumbersOf(Split(v, '.'))
  }

  /** `Number` applied to each piece. */
  function NumbersOf(pieces: seq<string>): (ps: seq<Option<Decimal>>)
    ensures |ps| == |pieces|
  {
    if |pieces| == 0 then [] else [NumberOf(pieces[0])] + NumbersOf(pieces[1..])
  }

  /** `currentParts[i] || 0`: a missing piece, NaN and 0 all read as 0. */
  function CurrentAt(cs: seq<Option<Decimal>>, i: nat): Decimal {
    if i < |cs| && cs[i].Some? then cs[i].value else Decimal(0, 0)
  }

  /**
   * The loop from index `i`: the first index of `latest` where the two differ
   * decides; a NaN piece of `latest` compares false both ways and is passed over.
   */
  function NewerFrom(ls: seq<Option<Decimal>>, cs: seq<Option<Decimal>>, i: nat): bool
    decreases |ls| - i
  {
    if i >= |ls| then false
    else match ls[i]
      case None => NewerFrom(ls, cs, i + 1)
      case Some(x) =>
        if Less(CurrentAt(cs, i), x) then true
        else if Less(x, CurrentAt(cs, i)) then false
        else NewerFrom(ls, cs, i + 1)
  }

  function Newer(latest: string, current: string): bool {
    NewerFrom(PartsOf(latest), PartsOf(current), 0)
  }

  /** `isNewerVersion`: both versions split and read, then the loop over their pieces. */
  method IsNewerVersion(latest: string, current: string) returns (r: bool)
    ensures r == Newer(latest, current)
  {
    r := NewerParts(PartsOf(latest), PartsOf(current));
  }

  /** The `for` loop with its early returns. */
  method NewerParts(ls: seq<Option<Decimal>>, cs: seq<Option<Decimal>>) returns (r: bool)
    ensures r == NewerFrom(ls, cs, 0)
  {
    var i := 0;
    while i < |ls|
      invariant 0 <= i <= |ls|
      invariant NewerFrom(ls, cs, i) == NewerFrom(ls, cs, 0)
    {
      if ls[i].Some? {
        var c := CurrentAt(cs, i);
        if Less(c, ls[i].value) {
          return true;
        } else if Less(ls[i].value, c) {
          return false;
        }
      }
      i := i + 1;
    }
    return false;
  }

  /** Every piece is a number. */
  predicate AllNumeric(ps: seq<Option<Decimal>>) {
    forall i :: 0 <= i < |ps| ==> ps[i].Some?
  }

  /** A version is never newer than itself. */
  lemma {:induction false} NotNewerThanItself(ps: seq<Option<Decimal>>, i: nat)
    ensures !NewerFrom(ps, ps, i)
    decreases |ps| - i
  {
    if i < |ps| {
      NotNewerThanItself(ps, i + 1);
    }
  }

  lemma NotNewerThanSelf(v: string)
    ensures !Newer(v, v)
  {
    NotNewerThanItself(PartsOf(v), 0);
  }

  /** For versions made of numbers, at most one of the two is newer than the other. */
  lemma {:induction false} AsymmetricFrom(ls: seq<Option<Decimal>>, cs: seq<Option<Decimal>>, i: nat)
    requires AllNumeric(ls) && AllNumeric(cs)
    ensures !(NewerFrom(ls, cs, i) && NewerFrom(cs, ls, i))
    decreases |ls| + |cs| - 2 * i
  {
    if i < |ls| && i < |cs| {
      Trichotomy(ls[i].value, cs[i].value);
      AsymmetricFrom(ls, cs, i + 1);
    } else if i < |ls| {
      assert !NewerFrom(cs, ls, i);
    } else if i < |cs| {
      assert !NewerFrom(ls, cs, i);
    }
  }

  lemma Asymmetric(a: string, b: string)
    requires AllNumeric(PartsOf(a)) && AllNumeric(PartsOf(b))
    ensures !(Newer(a, b) && Newer(b, a))
  {
    AsymmetricFrom(PartsOf(a), PartsOf(b), 0);
  }

  /** Splitting `a.b` for dot-free `a` and `b`. */
  lemma PiecesOf(a: string, b: string)
    requires '.' !in a && '.' !in b
    ensures Split(a + "." + b, '.') == [a, b]
  {
    assert a + "." + b == Join([a, b], '.') by {
      assert [a, b][1..] == [b];
    }
    SplitJoin([a, b], '.');
  }

  /** The numbers of a two-piece version. */
  lemma PartsOfPair(a: string, b: string)
    requires '.' !in a && '.' !in b
    ensures PartsOf(a + "." + b) == [NumberOf(a), NumberOf(b)]
  {
    PiecesOf(a, b);
    assert [a, b][1..] == [b] && [b][1..] == [];
    assert NumbersOf([b]) == [NumberOf(b)];
  }

  /** A non-empty string of digits is one numeric piece. */
  lemma DigitPiece(d: string)
    requires |d| > 0 && AllDigits(d)
    ensures NumberOf(d) == Some(Decimal(DigitsValue(d), 0))
    ensures '.' !in d
  {
    NumberOfDigits(d);
  }

  /** A one-character piece that is not a digit, a dot, a sign or white space is NaN. */
  lemma LetterIsNaN(x: char)
    requires !IsDigit(x) && !IsSpace(x) && x != '.' && x != '+' && x != '-'
    ensures NumberOf([x]) == None && '.' !in [x]
  {
    var t := [x];
    assert TrimStart(t) == t;
    assert TrimEnd(t) == t;
    assert Trim(t) == t;
    assert SignAt(t, 0) == (1, 0);
    assert DigitRun(t, 0) == 0;
    assert ScanDecimal(t, 0) == None;
  }

  /** Splitting `a.b.c` for dot-free pieces. */
  lemma PiecesOf3(a: string, b: string, c: string)
    requires '.' !in a && '.' !in b && '.' !in c
    ensures Split(a + "." + b + "." + c, '.') == [a, b, c]
  {
    assert Join([b, c], '.') == b + "." + c by {
      assert [b, c][1..] == [c];
    }
    assert Join([a, b, c], '.') == a + "." + (b + "." + c) by {
      assert [a, b, c][1..] == [b, c];
    }
    assert a + "." + (b + "." + c) == a + "." + b + "." + c;
    SplitJoin([a, b, c], '.');
  }

  /** The numbers of a three-piece version. */
  lemma PartsOfTriple(a: string, b: string, c: string)
    requires '.' !in a && '.' !in b && '.' !in c
    ensures PartsOf(a + "." + b + "." + c) == [NumberOf(a), NumberOf(b), NumberOf(c)]
  {
    PiecesOf3(a, b, c);
    NumbersOfTriple(a, b, c);
  }

  lemma NumbersOfTriple(a: string, b: string, c: string)
    ensures NumbersOf([a, b, c]) == [NumberOf(a), NumberOf(b), NumberOf(c)]
  {
    NumbersOfCons(c, []);
    NumbersOfCons(b, [c]);
    NumbersOfCons(a, [b, c]);
    assert [c] == [c] + [] && [b, c] == [b] + [c] && [a, b, c] == [a] + [b, c];
  }

  /** Reading the pieces one at a time. */
  lemma NumbersOfCons(p: string, rest: seq<string>)
    ensures NumbersOf([p] + rest) == [NumberOf(p)] + NumbersOf(rest)
  {
    assert ([p] + rest)[0] == p && ([p] + rest)[1..] == rest;
  }

  /** The reading of a piece that is a whole number. */
  function Piece(n: nat): Option<Decimal> {
    Some(Decimal(n, 0))
  }

  /** Same first piece: the second piece decides. */
  lemma SecondPieceDecides(m: nat, p: nat, q: nat)
    ensures NewerFrom([Piece(m), Piece(p)], [Piece(m), Piece(q)], 0) <==> p > q
  {
    var a, b := [Piece(m), Piece(p)], [Piece(m), Piece(q)];
    LessIntegers(m, m);
    LessIntegers(q, p);
    LessIntegers(p, q);
    assert CurrentAt(b, 0) == Decimal(m, 0) && CurrentAt(b, 1) == Decimal(q, 0);
    assert NewerFrom(a, b, 0) == NewerFrom(a, b, 1);
    assert !NewerFrom(a, b, 2);
  }

  /** A third piece of `latest` against a missing one of `current`. */
  lemma ThirdPieceAgainstZero(m: nat, n: nat, p: nat)
    ensures NewerFrom([Piece(m), Piece(n), Piece(p)], [Piece(m), Piece(n)], 0) <==> p > 0
    ensures !NewerFrom([Piece(m), Piece(n)], [Piece(m), Piece(n), Piece(p)], 0)
  {
    var a, b := [Piece(m), Piece(n), Piece(p)], [Piece(m), Piece(n)];
    LessIntegers(m, m);
    LessIntegers(n, n);
    LessIntegers(0, p);
    LessIntegers(p, 0);
    assert CurrentAt(b, 0) == Decimal(m, 0) && CurrentAt(b, 1) == Decimal(n, 0) && CurrentAt(b, 2) == Decimal(0, 0);
    assert CurrentAt(a, 0) == Decimal(m, 0) && CurrentAt(a, 1) == Decimal(n, 0);
    assert NewerFrom(a, b, 0) == NewerFrom(a, b, 2);
    assert !NewerFrom(a, b, 3);
    assert !NewerFrom(b, a, 0) by {
      assert !NewerFrom(b, a, 2);
    }
  }

  /**
   * The pieces are compared as numbers, not as text: with the same first
   * piece, `m.p` is newer than `m.q` exactly when `p` reads as the larger
   * number (so "1.10" is newer than "1.9").
   */
  lemma ComparedAsNumbers(m: string, p: string, q: string)
    requires |m| > 0 && AllDigits(m) && |p| > 0 && AllDigits(p) && |q| > 0 && AllDigits(q)
    ensures Newer(m + "." + p, m + "." + q) <==> DigitsValue(p) > DigitsValue(q)
  {
    DigitPiece(m);
    DigitPiece(p);
    DigitPiece(q);
    PartsOfPair(m, p);
    PartsOfPair(m, q);
    assert PartsOf(m + "." + p) == [Piece(DigitsValue(m)), Piece(DigitsValue(p))];
    assert PartsOf(m + "." + q) == [Piece(DigitsValue(m)), Piece(DigitsValue(q))];
    SecondPieceDecides(DigitsValue(m), DigitsValue(p), DigitsValue(q));
  }

  /**
   * Missing pieces of `current` count as 0, and only the pieces of `latest`
   * are scanned: `m.n.p` is newer than `m.n` exactly when `p` is not 0, and
   * `m.n` is never newer than `m.n.p`.
   */
  lemma MissingPieces(m: string, n: string, p: string)
    requires |m| > 0 && AllDigits(m) && |n| > 0 && AllDigits(n) && |p| > 0 && AllDigits(p)
    ensures Newer(m + "." + n + "." + p, m + "." + n) <==> DigitsValue(p) > 0
    ensures !Newer(m + "." + n, m + "." + n + "." + p)
  {
    DigitPiece(m);
    DigitPiece(n);
    DigitPiece(p);
    PartsOfTriple(m, n, p);
    PartsOfPair(m, n);
    assert PartsOf(m + "." + n + "." + p) == [Piece(DigitsValue(m)), Piece(DigitsValue(n)), Piece(DigitsValue(p))];
    assert PartsOf(m + "." + n) == [Piece(DigitsValue(m)), Piece(DigitsValue(n))];
    ThirdPieceAgainstZero(DigitsValue(m), DigitsValue(n), DigitsValue(p));
  }

  /**
   * Without the numeric precondition of `Asymmetric` both versions can be
   * newer than each other: a NaN first piece of `latest` is passed over, and
   * a NaN first piece of `current` reads as 0 (as with "x.2" and "1.0";
   * `LetterIsNaN` shows that "x" is such a piece).
   */
  lemma NonNumericBothNewer(x: string, b: string, c: string, d: string)
    requires '.' !in x && NumberOf(x).None?
    requires |b| > 0 && AllDigits(b) && |c| > 0 && AllDigits(c) && |d| > 0 && AllDigits(d)
    requires DigitsValue(b) > DigitsValue(d) && DigitsValue(c) > 0
    ensures Newer(x + "." + b, c + "." + d) && Newer(c + "." + d, x + "." + b)
  {
    DigitPiece(b);
    DigitPiece(c);
    DigitPiece(d);
    PartsOfPair(x, b);
    PartsOfPair(c, d);
    assert PartsOf(x + "." + b) == [None, Piece(DigitsValue(b))];
    assert PartsOf(c + "." + d) == [Piece(DigitsValue(c)), Piece(DigitsValue(d))];
    NaNPassedOver(DigitsValue(b), DigitsValue(c), DigitsValue(d));
  }

  /** The decision behind `NonNumericBothNewer`, on the parsed pieces. */
  lemma NaNPassedOver(b: nat, c: nat, d: nat)
    requires b > d && c > 0
    ensures NewerFrom([None, Piece(b)], [Piece(c), Piece(d)], 0)
    ensures NewerFrom([Piece(c), Piece(d)], [None, Piece(b)], 0)
  {
    var l, r := [None, Piece(b)], [Piece(c), Piece(d)];
    LessIntegers(d, b);
    LessIntegers(0, c);
    assert NewerFrom(l, r, 0) == NewerFrom(l, r, 1);
  }
}
