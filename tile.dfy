/** The optional value the source expresses with `None`. */
module Wrappers {
  datatype Option<T> = None | Some(value: T)
}

/**
 * Tile values, their equality and printed form, and the ordered
 * 136-tile deck (tile.py).
 */
module Tiles {
  import opened Wrappers

  datatype TileType = Manzu | Pinzu | Souzu | Jihai

  /**
   * A tile as tile.py builds it. Type and number are its identity; the image
   * path and the two flags are presentation hints that equality ignores.
   */
  datatype Tile = Tile(
    tileType: TileType,
    number: int,
    imagePath: Option<string>,
    isDiscarded: bool,
    isInHand: bool)

  /** The part of a tile that equality looks at. */
  datatype Face = Face(tileType: TileType, number: int)

  /** `Tile(tile_type, number)`: no image path, both flags cleared. */
  function NewTile(tileType: TileType, number: int): Tile
  {
    Tile(tileType, number, None, false, false)
  }

  predicate IsFresh(t: Tile)
  {
    t.imagePath == None && !t.isDiscarded && !t.isInHand
  }

  function FaceOf(t: Tile): Face
  {
    Face(t.tileType, t.number)
  }

  /** 1 when t shows face f, else 0. */
  function One(t: Tile, f: Face): nat
  {
    if FaceOf(t) == f then 1 else 0
  }

  /** How many tiles of `s` show face f: conservation of tiles is stated face by face with it. */
  function Count(s: seq<Tile>, f: Face): (n: nat)
    ensures n <= |s|
  {
    if s == [] then 0 else Count(s[..|s| - 1], f) + One(s[|s| - 1], f)
  }

  lemma {:induction false} CountConcat(a: seq<Tile>, b: seq<Tile>, f: Face)
    ensures Count(a + b, f) == Count(a, f) + Count(b, f)
  {
    if b == [] {
      assert a + b == a;
    } else {
      var b' := b[..|b| - 1];
      assert (a + b)[..|a + b| - 1] == a + b';
      CountConcat(a, b', f);
    }
  }

  lemma CountSingle(t: Tile, f: Face)
    ensures Count([t], f) == One(t, f)
  {
    assert [t][..0] == [];
  }

  /** Taking out position j lowers the count of that tile's face by one and leaves the others. */
  lemma CountWithout(t: seq<Tile>, j: int, f: Face)
    requires 0 <= j < |t|
    ensures Count(t, f) == Count(t[..j] + t[j + 1..], f) + One(t[j], f)
  {
    assert t == t[..j] + [t[j]] + t[j + 1..];
    CountConcat(t[..j] + [t[j]], t[j + 1..], f);
    CountConcat(t[..j], [t[j]], f);
    CountSingle(t[j], f);
    CountConcat(t[..j], t[j + 1..], f);
  }

  /** A face that is counted occurs at some position. */
  lemma {:induction false} CountPositive(t: seq<Tile>, f: Face) returns (j: int)
    requires Count(t, f) > 0
    ensures 0 <= j < |t| && FaceOf(t[j]) == f
    decreases |t|
  {
    if FaceOf(t[|t| - 1]) == f {
      j := |t| - 1;
    } else {
      j := CountPositive(t[..|t| - 1], f);
    }
  }

  /** Two sequences with the same count of every face have the same length. */
  lemma {:induction false} CountsFixLength(s: seq<Tile>, t: seq<Tile>)
    requires forall f :: Count(s, f) == Count(t, f)
    ensures |s| == |t|
    decreases |s|
  {
    if s == [] {
      var g := if t == [] then Face(Manzu, 0) else FaceOf(t[|t| - 1]);
      assert t != [] ==> Count(t, g) > 0;
      assert Count(s, g) == Count(t, g);
    } else {
      var x := s[|s| - 1];
      var s' := s[..|s| - 1];
      assert Count(s, FaceOf(x)) > 0;
      var j := CountPositive(t, FaceOf(x));
      var t' := t[..j] + t[j + 1..];
      forall f
        ensures Count(s', f) == Count(t', f)
      {
        CountWithout(t, j, f);
      }
      CountsFixLength(s', t');
    }
  }

  // ---------------------------------------------------------------------
  // Equality (Tile.__eq__)
  // ---------------------------------------------------------------------

  /**
   * `a == other`, where `other` is `None` when the right operand is not a
   * Tile at all.
   */
  predicate Equals(a: Tile, other: Option<Tile>)
  {
    match other
    case None => false
    case Some(t) => a.tileType == t.tileType && a.number == t.number
  }

  /** Equality between two tiles, the comparison `in` and `remove` use. */
  predicate SameTile(a: Tile, b: Tile)
  {
    Equals(a, Some(b))
  }

  lemma EqualsIffSameFace(a: Tile, other: Option<Tile>)
    ensures Equals(a, other) <==> other.Some? && FaceOf(a) == FaceOf(other.value)
  {
  }

  lemma EqualsIgnoresHints(a: Tile, b: Tile, path: Option<string>, discarded: bool, inHand: bool)
    ensures SameTile(a, b) <==> SameTile(a.(imagePath := path, isDiscarded := discarded, isInHand := inHand), b)
    ensures SameTile(a, b) <==> SameTile(a, b.(imagePath := path, isDiscarded := discarded, isInHand := inHand))
  {
  }

  lemma SameTileIsEquivalence(a: Tile, b: Tile, c: Tile)
    ensures SameTile(a, a)
    ensures SameTile(a, b) <==> SameTile(b, a)
    ensures SameTile(a, b) && SameTile(b, c) ==> SameTile(a, c)
  {
  }

  // ---------------------------------------------------------------------
  // Printed form (Tile.__str__)
  // ---------------------------------------------------------------------

  /** The single character naming a suit. */
  function Mark(k: TileType): char
  {
    match k
    case Manzu => '萬'
    case Pinzu => '筒'
    case Souzu => '索'
    case Jihai => '字'
  }

  /** The suit a mark names, if it is one. */
  function MarkType(c: char): (r: Option<TileType>)
    ensures forall k :: r == Some(k) <==> Mark(k) == c
  {
    if c == '萬' then Some(Manzu)
    else if c == '筒' then Some(Pinzu)
    else if c == '索' then Some(Souzu)
    else if c == '字' then Some(Jihai)
    else None
  }

  predicate IsDigit(c: char)
  {
    '0' <= c <= '9'
  }

  function DigitChar(d: int): (c: char)
    requires 0 <= d < 10
    ensures IsDigit(c)
  {
    ('0' as int + d) as char
  }

  function DigitValue(c: char): int
  {
    c as int - '0' as int
  }

  /** Decimal digits of a natural number, most significant first, no leading zeros. */
  function Decimal(n: nat): (s: string)
    ensures |s| >= 1
    ensures forall i :: 0 <= i < |s| ==> IsDigit(s[i])
    ensures |s| > 1 ==> s[0] != '0'
    decreases n
  {
    if n < 10 then [DigitChar(n)] else Decimal(n / 10) + [DigitChar(n % 10)]
  }

  /** Python's `str` of an int: a minus sign before the digits of a negative number. */
  function IntToString(n: int): string
  {
    if n < 0 then "-" + Decimal(-n) else Decimal(n)
  }

  /** `str(tile)`: the number in decimal followed by the suit's mark. */
  function ToString(t: Tile): string
  {
    IntToString(t.number) + [Mark(t.tileType)]
  }

  /** Reads back a string of decimal digits. */
  function ParseDecimal(s: string): int
  {
    if s == [] then 0 else 10 * ParseDecimal(s[..|s| - 1]) + DigitValue(s[|s| - 1])
  }

  function ParseInt(s: string): int
  {
    if |s| > 0 && s[0] == '-' then -ParseDecimal(s[1..]) else ParseDecimal(s)
  }

  /** Reads back the face printed by `ToString`. */
  function ParseTile(s: string): Option<Face>
  {
    if |s| < 2 then None
    else
      match MarkType(s[|s| - 1])
      case None => None
      case Some(k) => Some(Face(k, ParseInt(s[..|s| - 1])))
  }

  lemma {:induction false} DecimalRoundTrip(n: nat)
    ensures ParseDecimal(Decimal(n)) == n
    decreases n
  {
    if n >= 10 {
      DecimalRoundTrip(n / 10);
      var s := Decimal(n);
      assert s[..|s| - 1] == Decimal(n / 10);
    }
  }

  lemma IntToStringRoundTrip(n: int)
    ensures ParseInt(IntToString(n)) == n
  {
    if n < 0 {
      var d := Decimal(-n);
      DecimalRoundTrip(-n);
      var s := "-" + d;
      assert s[0] == '-' && s[1..] == d;
    } else {
      var d := Decimal(n);
      DecimalRoundTrip(n);
      assert IsDigit(d[0]);
    }
  }

  /** The printed form of a tile determines its face. */
  lemma ToStringRoundTrip(t: Tile)
    ensures ParseTile(ToString(t)) == Some(FaceOf(t))
  {
    var s := ToString(t);
    assert s[..|s| - 1] == IntToString(t.number);
    IntToStringRoundTrip(t.number);
  }

  /** Two tiles print the same exactly when they are equal. */
  lemma ToStringMatchesEquality(a: Tile, b: Tile)
    ensures ToString(a) == ToString(b) <==> SameTile(a, b)
  {
    ToStringRoundTrip(a);
    ToStringRoundTrip(b);
  }

  /** A tile whose number is one digit prints as that digit and its mark. */
  lemma ToStringOneDigit(t: Tile)
    requires 0 <= t.number <= 9
    ensures ToString(t) == [DigitChar(t.number), Mark(t.tileType)]
  {
  }

  // ---------------------------------------------------------------------
  // The deck (create_all_tiles)
  // ---------------------------------------------------------------------

  /** The value ranges the deck uses: 1..9 for the three suits, 1..7 for honours. */
  predicate IsValidFace(f: Face)
  {
    1 <= f.number <= (if f.tileType == Jihai then 7 else 9)
  }

  function Repeat(t: Tile, c: nat): (s: seq<Tile>)
    ensures |s| == c
    ensures forall i :: 0 <= i < c ==> s[i] == t
  {
    seq(c, _ => t)
  }

  /** Four fresh copies of each number 1..n of one suit, numbers ascending. */
  function SuitRun(k: TileType, n: nat): (s: seq<Tile>)
    ensures |s| == 4 * n
    decreases n
  {
    if n == 0 then [] else SuitRun(k, n - 1) + Repeat(NewTile(k, n), 4)
  }

  /** The deck create_all_tiles builds. */
  function FullDeck(): seq<Tile>
  {
    SuitRun(Manzu, 9) + SuitRun(Pinzu, 9) + SuitRun(Souzu, 9) + SuitRun(Jihai, 7)
  }

  /** How many copies of a face the deck holds. */
  function DeckCopies(f: Face): nat
  {
    if IsValidFace(f) then 4 else 0
  }

  /**
   * What a shuffled deck looks like: 136 fresh tiles, each valid face four
   * times and no other face.
   */
  ghost predicate IsShuffledDeck(s: seq<Tile>)
  {
    && |s| == 136
    && (forall i :: 0 <= i < |s| ==> IsFresh(s[i]))
    && forall f :: Count(s, f) == DeckCopies(f)
  }

  lemma {:induction false} SuitRunAt(k: TileType, n: nat, i: int)
    requires 0 <= i < 4 * n
    ensures SuitRun(k, n)[i] == NewTile(k, i / 4 + 1)
    decreases n
  {
    if i < 4 * (n - 1) {
      SuitRunAt(k, n - 1, i);
    } else {
      assert i / 4 == n - 1;
    }
  }

  lemma DeckSize()
    ensures |FullDeck()| == 136
  {
  }

  /** Position i of the deck: 36 MANZU, then 36 PINZU, 36 SOUZU and 28 JIHAI, each block by ascending number in groups of four. */
  lemma DeckLayout(i: int)
    requires 0 <= i < 136
    ensures FullDeck()[i] ==
      if i < 36 then NewTile(Manzu, i / 4 + 1)
      else if i < 72 then NewTile(Pinzu, (i - 36) / 4 + 1)
      else if i < 108 then NewTile(Souzu, (i - 72) / 4 + 1)
      else NewTile(Jihai, (i - 108) / 4 + 1)
  {
    var d := FullDeck();
    var a, b, c, e := SuitRun(Manzu, 9), SuitRun(Pinzu, 9), SuitRun(Souzu, 9), SuitRun(Jihai, 7);
    assert d == a + b + c + e;
    if i < 36 {
      SuitRunAt(Manzu, 9, i);
    } else if i < 72 {
      SuitRunAt(Pinzu, 9, i - 36);
    } else if i < 108 {
      SuitRunAt(Souzu, 9, i - 72);
    } else {
      SuitRunAt(Jihai, 7, i - 108);
    }
  }

  function SuitRank(k: TileType): int
  {
    match k
    case Manzu => 0
    case Pinzu => 1
    case Souzu => 2
    case Jihai => 3
  }

  /** Every deck tile is fresh and valid; suits come in the order MANZU, PINZU, SOUZU, JIHAI, numbers ascend within a suit, and copies sit in aligned groups of four. */
  lemma DeckOrder(i: int, j: int)
    requires 0 <= i <= j < 136
    ensures IsFresh(FullDeck()[i]) && IsValidFace(FaceOf(FullDeck()[i]))
    ensures SuitRank(FullDeck()[i].tileType) <= SuitRank(FullDeck()[j].tileType)
    ensures FullDeck()[i].tileType == FullDeck()[j].tileType ==> FullDeck()[i].number <= FullDeck()[j].number
    ensures i / 4 == j / 4 ==> FullDeck()[i] == FullDeck()[j]
  {
    DeckLayout(i);
    DeckLayout(j);
  }

  lemma {:induction false} CountRepeat(t: Tile, c: nat, f: Face)
    ensures Count(Repeat(t, c), f) == if FaceOf(t) == f then c else 0
  {
    if c > 0 {
      assert Repeat(t, c)[..c - 1] == Repeat(t, c - 1);
      CountRepeat(t, c - 1, f);
    }
  }

  lemma {:induction false} SuitRunCount(k: TileType, n: nat, f: Face)
    ensures Count(SuitRun(k, n), f) == if f.tileType == k && 1 <= f.number <= n then 4 else 0
    decreases n
  {
    if n > 0 {
      SuitRunCount(k, n - 1, f);
      var t := NewTile(k, n);
      CountConcat(SuitRun(k, n - 1), Repeat(t, 4), f);
      CountRepeat(t, 4, f);
    }
  }

  /** Each valid face occurs exactly four times in the deck and no other face occurs. */
  lemma DeckCounts(f: Face)
    ensures Count(FullDeck(), f) == DeckCopies(f)
  {
    var a, b, c, e := SuitRun(Manzu, 9), SuitRun(Pinzu, 9), SuitRun(Souzu, 9), SuitRun(Jihai, 7);
    CountConcat(a, b, f);
    CountConcat(a + b, c, f);
    CountConcat(a + b + c, e, f);
    SuitRunCount(Manzu, 9, f);
    SuitRunCount(Pinzu, 9, f);
    SuitRunCount(Souzu, 9, f);
    SuitRunCount(Jihai, 7, f);
  }

  /** Permuting tiles keeps how many of them show each face. */
  lemma {:induction false} PermutedCount(s: seq<Tile>, t: seq<Tile>, f: Face)
    requires multiset(s) == multiset(t)
    ensures Count(s, f) == Count(t, f)
    decreases |s|
  {
    if s != [] {
      var x := s[0];
      assert x in multiset(t);
      var j :| 0 <= j < |t| && t[j] == x;
      var t' := t[..j] + t[j + 1..];
      assert t == t[..j] + [x] + t[j + 1..];
      assert s == [x] + s[1..];
      assert multiset(s) == multiset{x} + multiset(s[1..]);
      assert multiset(t) == multiset(t[..j]) + multiset{x} + multiset(t[j + 1..]);
      assert multiset(t') == multiset(t[..j]) + multiset(t[j + 1..]);
      forall y
        ensures multiset(s[1..])[y] == multiset(t')[y]
      {
        assert multiset(s)[y] == multiset{x}[y] + multiset(s[1..])[y];
        assert multiset(t)[y] == multiset(t[..j])[y] + multiset{x}[y] + multiset(t[j + 1..])[y];
        assert multiset(s)[y] == multiset(t)[y];
      }
      assert multiset(s[1..]) == multiset(t');
      PermutedCount(s[1..], t', f);
      CountConcat([x], s[1..], f);
      CountConcat(t[..j], [x], f);
      CountConcat(t[..j] + [x], t[j + 1..], f);
      CountConcat(t[..j], t[j + 1..], f);
    }
  }

  lemma DeckFresh()
    ensures |FullDeck()| == 136
    ensures forall j :: 0 <= j < |FullDeck()| ==> IsFresh(FullDeck()[j])
  {
    forall j | 0 <= j < |FullDeck()|
      ensures IsFresh(FullDeck()[j])
    {
      DeckOrder(j, j);
    }
  }

  /** A permutation of a deck has its length, its freshness and its face counts. */
  lemma PermutationKeepsDeck(s: seq<Tile>, d: seq<Tile>)
    requires multiset(s) == multiset(d)
    ensures |s| == |d|
    ensures (forall j :: 0 <= j < |d| ==> IsFresh(d[j])) ==> forall i :: 0 <= i < |s| ==> IsFresh(s[i])
    ensures forall f :: Count(s, f) == Count(d, f)
  {
    assert |multiset(s)| == |multiset(d)|;
    if forall j :: 0 <= j < |d| ==> IsFresh(d[j]) {
      forall i | 0 <= i < |s|
        ensures IsFresh(s[i])
      {
        assert s[i] in multiset(d);
        var j :| 0 <= j < |d| && d[j] == s[i];
      }
    }
    forall f
      ensures Count(s, f) == Count(d, f)
    {
      PermutedCount(s, d, f);
    }
  }

  /** Tiles whose face counts are the deck's are 136 tiles. */
  lemma DeckCountsFixLength(s: seq<Tile>)
    requires forall f :: Count(s, f) == DeckCopies(f)
    ensures |s| == 136
  {
    forall f
      ensures Count(s, f) == Count(FullDeck(), f)
    {
      DeckCounts(f);
    }
    CountsFixLength(s, FullDeck());
  }

  /** Whatever order `random.shuffle` leaves the deck in, it is a shuffled deck. */
  lemma ShuffleIsShuffledDeck(s: seq<Tile>)
    requires multiset(s) == multiset(FullDeck())
    ensures IsShuffledDeck(s)
  {
    DeckFresh();
    PermutationKeepsDeck(s, FullDeck());
    forall f
      ensures Count(s, f) == DeckCopies(f)
    {
      DeckCounts(f);
    }
  }

  /** create_all_tiles: four nested loops appending fresh tiles. */
  method CreateAllTiles() returns (tiles: seq<Tile>)
    ensures tiles == FullDeck()
  {
    tiles := [];
    tiles := AppendSuit(tiles, Manzu, 9);
    tiles := AppendSuit(tiles, Pinzu, 9);
    tiles := AppendSuit(tiles, Souzu, 9);
    tiles := AppendSuit(tiles, Jihai, 7);
  }

  /** One `for number in range(1, top + 1): for _ in range(4): append` block. */
  method AppendSuit(tiles: seq<Tile>, k: TileType, top: nat) returns (r: seq<Tile>)
    ensures r == tiles + SuitRun(k, top)
  {
    r := tiles;
    for number := 1 to top + 1
      invariant r == tiles + SuitRun(k, number - 1)
    {
      var t := NewTile(k, number);
      for c := 0 to 4
        invariant r == tiles + SuitRun(k, number - 1) + Repeat(t, c)
      {
        assert Repeat(t, c) + [t] == Repeat(t, c + 1);
        r := r + [t];
      }
    }
  }
}
