/** Splitting a text into words. */
module Text {
  import opened Words
  import opened Bytes
  import Lists

  const MAX_WORD: nat := 16

  predicate IsSpace(b: u8) {
    b == 0x20 || b == 0x0A || b == 0x09
  }

  predicate IsWord(w: Bytes) {
    0 < |w| <= MAX_WORD && forall k :: 0 <= k < |w| ==> !IsSpace(w[k])
  }

  /** The first piece of the text ends at `n`: at the first space, or at the end of the text. */
  ghost predicate EndsPiece(data: Bytes, n: nat) {
    n <= |data| && (n < |data| ==> IsSpace(data[n])) && forall k :: 0 <= k < n ==> !IsSpace(data[k])
  }

  function FirstSpace(data: Bytes): (n: nat)
    ensures n <= |data| && EndsPiece(data, n)
  {
    if data == [] || IsSpace(data[0]) then 0 else 1 + FirstSpace(data[1..])
  }

  /** The pieces between spaces, empty ones included. */
  function Split(data: Bytes): seq<Bytes>
    decreases |data|
  {
    var n := FirstSpace(data);
    if n == |data| then [data] else [data[..n]] + Split(data[n + 1..])
  }

  predicate Keeps(piece: Bytes) {
    0 < |piece| <= MAX_WORD
  }

  /** The pieces that count as words. */
  function Kept(pieces: seq<Bytes>): seq<Bytes> {
    if pieces == [] then [] else (if Keeps(pieces[0]) then [pieces[0]] else []) + Kept(pieces[1..])
  }

  function WordsOf(data: Bytes): seq<Bytes> {
    Kept(Split(data))
  }

  function Times(words: seq<Bytes>, w: Bytes): nat {
    if words == [] then 0 else (if words[0] == w then 1 else 0) + Times(words[1..], w)
  }

  // ----- Occurrences in the text -----------------------------------------------------------

  /** `w` stands at position `k`, with a space or an end of the text on either side. */
  ghost predicate OccursAt(data: Bytes, w: Bytes, k: nat) {
    && k + |w| <= |data| && data[k..k + |w|] == w
    && (k == 0 || IsSpace(data[k - 1]))
    && (k + |w| == |data| || IsSpace(data[k + |w|]))
  }

  ghost function Positions(data: Bytes, w: Bytes): set<nat> {
    set k: nat | k <= |data| && OccursAt(data, w, k)
  }

  ghost function Shifted(s: set<nat>, d: nat): set<nat> {
    set k | k in s :: k + d
  }

  lemma InShifted(s: set<nat>, d: nat, x: nat)
    ensures x in Shifted(s, d) <==> x >= d && x - d in s
  {
    if x >= d && x - d in s {
      var k: nat := x - d;
      assert k in s && x == k + d;
    }
  }

  lemma ShiftedOneMore(s: set<nat>, d: nat, k: nat)
    requires k !in s
    ensures Shifted(s + {k}, d) == Shifted(s, d) + {k + d} && k + d !in Shifted(s, d)
  {
    var more, shifted := Shifted(s + {k}, d), Shifted(s, d);
    forall x: nat ensures x in more <==> x in shifted || x == k + d {
      InShifted(s + {k}, d, x);
      InShifted(s, d, x);
    }
    InShifted(s, d, k + d);
  }

  lemma {:induction false} ShiftedSize(s: set<nat>, d: nat)
    ensures |Shifted(s, d)| == |s|
    decreases s
  {
    if s == {} {
      assert Shifted(s, d) == {};
    } else {
      var k :| k in s;
      var fewer := s - {k};
      ShiftedSize(fewer, d);
      ShiftedOneMore(fewer, d, k);
      assert s == fewer + {k};
    }
  }

  /** A word that is not the first piece lies behind the first space. */
  lemma NotInFirstPiece(data: Bytes, n: nat, w: Bytes, k: nat)
    requires IsWord(w) && OccursAt(data, w, k) && k > 0 && EndsPiece(data, n)
    ensures n < k
  {
    assert !(k - 1 < n);
  }

  lemma FirstPiece(data: Bytes, n: nat, w: Bytes)
    requires IsWord(w) && EndsPiece(data, n)
    ensures OccursAt(data, w, 0) <==> data[..n] == w
  {
    if OccursAt(data, w, 0) {
      assert forall k :: 0 <= k < |w| ==> data[0..|w|][k] == w[k] && data[k] == w[k];
      assert n == |w|;
    }
    if data[..n] == w { assert data[0..0 + |w|] == w; }
  }

  lemma BehindSpace(data: Bytes, n: nat, rest: Bytes, w: Bytes, k: nat)
    requires n < |data| && IsSpace(data[n]) && rest == data[n + 1..]
    ensures OccursAt(data, w, n + 1 + k) <==> OccursAt(rest, w, k)
  {
    if k + |w| <= |rest| { assert rest[k..k + |w|] == data[n + 1 + k..n + 1 + k + |w|]; }
  }

  lemma PositionBehind(data: Bytes, n: nat, rest: Bytes, w: Bytes, k: nat)
    requires IsWord(w) && n < |data| && EndsPiece(data, n) && rest == data[n + 1..]
    ensures k in Positions(data, w) <==> k in Shifted(Positions(rest, w), n + 1) || (k == 0 && data[..n] == w)
  {
    InShifted(Positions(rest, w), n + 1, k);
    if k > n {
      BehindSpace(data, n, rest, w, k - (n + 1));
    } else if k > 0 {
      if OccursAt(data, w, k) { NotInFirstPiece(data, n, w, k); }
    } else {
      FirstPiece(data, n, w);
    }
  }

  lemma PositionsSplit(data: Bytes, n: nat, rest: Bytes, w: Bytes)
    requires IsWord(w) && n < |data| && EndsPiece(data, n) && rest == data[n + 1..]
    ensures |Positions(data, w)| == (if data[..n] == w then 1 else 0) + |Positions(rest, w)|
  {
    var first := data[..n] == w;
    var all, behind := Positions(data, w), Shifted(Positions(rest, w), n + 1);
    forall k: nat ensures k in all <==> k in behind || (k == 0 && first) {
      PositionBehind(data, n, rest, w, k);
    }
    InShifted(Positions(rest, w), n + 1, 0);
    ShiftedSize(Positions(rest, w), n + 1);
    assert all == behind + if first then {0} else {};
  }

  lemma PositionsWhole(data: Bytes, w: Bytes)
    requires IsWord(w) && EndsPiece(data, |data|)
    ensures |Positions(data, w)| == if data == w then 1 else 0
  {
    FirstPiece(data, |data|, w);
    assert data[..|data|] == data;
    forall k: nat | k in Positions(data, w) ensures k == 0 {
      if k > 0 { NotInFirstPiece(data, |data|, w, k); }
    }
    assert Positions(data, w) == if data == w then {0} else {};
  }

  lemma KeptFront(first: Bytes, rest: seq<Bytes>)
    ensures Kept([first] + rest) == (if Keeps(first) then [first] else []) + Kept(rest)
  {
    assert ([first] + rest)[1..] == rest;
  }

  lemma TimesFront(w: Bytes, first: Bytes, rest: seq<Bytes>)
    requires IsWord(w)
    ensures Times(Kept([first] + rest), w) == (if first == w then 1 else 0) + Times(Kept(rest), w)
  {
    KeptFront(first, rest);
    var kept := Kept(rest);
    if Keeps(first) {
      assert ([first] + kept)[1..] == kept;
    } else {
      assert [] + kept == kept;
    }
  }

  /** The split finds every word of the text, once for each place where it stands. */
  lemma {:induction false} SplitIsExact(data: Bytes, w: Bytes)
    requires IsWord(w)
    ensures Times(WordsOf(data), w) == |Positions(data, w)|
    decreases |data|
  {
    var n := FirstSpace(data);
    if n == |data| {
      PositionsWhole(data, w);
      TimesFront(w, data, []);
      assert Split(data) == [data] + [];
    } else {
      PositionsSplit(data, n, data[n + 1..], w);
      SplitIsExact(data[n + 1..], w);
      TimesFront(w, data[..n], Split(data[n + 1..]));
    }
  }

  // ----- What splitting means, byte by byte ------------------------------------------------

  lemma {:induction false} KeptComesFrom(pieces: seq<Bytes>, k: nat) returns (at: nat)
    requires k < |Kept(pieces)|
    ensures at < |pieces| && pieces[at] == Kept(pieces)[k] && Keeps(pieces[at])
    decreases |pieces|
  {
    if Keeps(pieces[0]) {
      if k == 0 {
        at := 0;
      } else {
        var rest := KeptComesFrom(pieces[1..], k - 1);
        at := rest + 1;
      }
    } else {
      var rest := KeptComesFrom(pieces[1..], k);
      at := rest + 1;
    }
  }

  lemma {:induction false} PiecesHaveNoSpace(data: Bytes, k: nat)
    requires k < |Split(data)|
    ensures forall x :: 0 <= x < |Split(data)[k]| ==> !IsSpace(Split(data)[k][x])
    decreases |data|
  {
    var n := FirstSpace(data);
    if n < |data| && k > 0 {
      PiecesHaveNoSpace(data[n + 1..], k - 1);
    }
  }

  lemma {:induction false} KeptConcat(a: seq<Bytes>, b: seq<Bytes>)
    ensures Kept(a + b) == Kept(a) + Kept(b)
    decreases |a|
  {
    if a == [] {
      assert a + b == b;
    } else {
      KeptConcat(a[1..], b);
      assert a + b == [a[0]] + (a[1..] + b);
      KeptFront(a[0], a[1..] + b);
    }
  }

  /** A piece ends in one place only. */
  lemma PieceEndsOnce(data: Bytes, n: nat)
    requires EndsPiece(data, n)
    ensures FirstSpace(data) == n
  {
    var m := FirstSpace(data);
    assert !(m < n) && !(n < m);
  }

  lemma SplitPiece(data: Bytes, n: nat, rest: Bytes)
    requires EndsPiece(data, n) && n < |data| && rest == data[n + 1..]
    ensures Split(data) == [data[..n]] + Split(rest)
  {
    PieceEndsOnce(data, n);
  }

  lemma SplitWhole(data: Bytes)
    requires EndsPiece(data, |data|)
    ensures Split(data) == [data]
  {
    PieceEndsOnce(data, |data|);
  }

  /** The first piece of `a`, with `d` and `b` behind it. */
  lemma FirstPieceStays(a: Bytes, d: u8, b: Bytes, n: nat)
    requires EndsPiece(a, n) && IsSpace(d)
    ensures var data := a + [d] + b;
      && EndsPiece(data, n) && data[..n] == a[..n]
      && data[n + 1..] == if n == |a| then b else a[n + 1..] + [d] + b
  {
  }

  lemma {:induction false} SplitAtSpace(a: Bytes, d: u8, b: Bytes)
    requires IsSpace(d)
    ensures Split(a + [d] + b) == Split(a) + Split(b)
    decreases |a|
  {
    var n := FirstSpace(a);
    FirstPieceStays(a, d, b, n);
    if n == |a| {
      SplitPiece(a + [d] + b, n, b);
      SplitWhole(a);
      assert a[..n] == a;
    } else {
      SplitPiece(a + [d] + b, n, a[n + 1..] + [d] + b);
      SplitPiece(a, n, a[n + 1..]);
      SplitAtSpace(a[n + 1..], d, b);
      Lists.ConcatAssociates([a[..n]], Split(a[n + 1..]), Split(b));
    }
  }

  /** Spaces, line feeds and tabs separate words, and nothing is lost at them. */
  lemma SeparatedWords(a: Bytes, d: u8, b: Bytes)
    requires d == 0x20 || d == 0x0A || d == 0x09
    ensures WordsOf(a + [d] + b) == WordsOf(a) + WordsOf(b)
  {
    SplitAtSpace(a, d, b);
    KeptConcat(Split(a), Split(b));
  }

  /** A text without these bytes is one word, if it has between one and sixteen bytes, and none
      otherwise. */
  lemma LoneWord(text: Bytes)
    requires 0x20 !in text && 0x0A !in text && 0x09 !in text
    ensures WordsOf(text) == if 1 <= |text| <= 16 then [text] else []
  {
    PieceEndsOnce(text, |text|);
    assert Split(text) == [text] + [];
    KeptFront(text, []);
  }

  /** No word holds one of these bytes, and none is empty or longer than sixteen bytes. */
  lemma WordsHoldNoSeparator(data: Bytes, k: nat)
    requires k < |WordsOf(data)|
    ensures var w := WordsOf(data)[k]; 1 <= |w| <= 16 && 0x20 !in w && 0x0A !in w && 0x09 !in w
  {
    var at := KeptComesFrom(Split(data), k);
    PiecesHaveNoSpace(data, at);
  }
}
