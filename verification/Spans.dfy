/**
 Values joined, and where each stops: what the module hands over for
 text, and how JavaScript cuts it up again, in bytes or, after one decode of
 the whole, in UTF-16 units.
 */
module Spans {
  import opened Bits
  import opened Utf

  function Start(ends: seq<nat>, i: nat): nat
    requires i <= |ends|
  {
    if i == 0 then 0 else ends[i - 1]
  }

  /** `ends` cuts something `len` long into consecutive pieces. */
  ghost predicate Cuts(ends: seq<nat>, len: nat)
  {
    && (forall i :: 0 <= i < |ends| ==> Start(ends, i) <= ends[i] <= len)
    && Start(ends, |ends|) == len
  }

  function Piece<T>(s: seq<T>, ends: seq<nat>, i: nat): seq<T>
    requires Cuts(ends, |s|) && i < |ends|
  {
    s[Start(ends, i)..ends[i]]
  }

  ghost function Pieces<T>(s: seq<T>, ends: seq<nat>): (ps: seq<seq<T>>)
    requires Cuts(ends, |s|)
    ensures |ps| == |ends|
  {
    seq(|ends|, i requires 0 <= i < |ends| => Piece(s, ends, i))
  }

  function Join<T>(ps: seq<seq<T>>): seq<T>
  {
    if ps == [] then [] else Join(ps[..|ps| - 1]) + ps[|ps| - 1]
  }

  function EndsOf<T>(ps: seq<seq<T>>): (ends: seq<nat>)
    ensures |ends| == |ps|
  {
    if ps == [] then [] else EndsOf(ps[..|ps| - 1]) + [|Join(ps)|]
  }

  lemma PiecesPush<T>(s: seq<T>, ends: seq<nat>, v: seq<T>)
    requires Cuts(ends, |s|)
    ensures Cuts(ends + [|s| + |v|], |s + v|)
    ensures Pieces(s + v, ends + [|s| + |v|]) == Pieces(s, ends) + [v]
  {
    var e := ends + [|s| + |v|];
    forall i | 0 <= i < |e|
      ensures Start(e, i) <= e[i] <= |s + v|
      ensures (s + v)[Start(e, i)..e[i]] == (Pieces(s, ends) + [v])[i]
    {
      if i < |ends| {
        assert Start(e, i) == Start(ends, i);
        assert (Pieces(s, ends) + [v])[i] == Piece(s, ends, i);
      } else {
        assert (s + v)[|s|..|s| + |v|] == v;
      }
    }
  }

  lemma JoinPush<T>(ps: seq<seq<T>>, v: seq<T>)
    ensures Join(ps + [v]) == Join(ps) + v
    ensures EndsOf(ps + [v]) == EndsOf(ps) + [|Join(ps)| + |v|]
  {
    assert (ps + [v])[..|ps|] == ps;
  }

  /** Values joined and cut at their ends are the values. */
  lemma {:induction false} CutJoined<T>(ps: seq<seq<T>>)
    ensures Cuts(EndsOf(ps), |Join(ps)|)
    ensures Pieces(Join(ps), EndsOf(ps)) == ps
  {
    if ps != [] {
      var front, v := ps[..|ps| - 1], ps[|ps| - 1];
      CutJoined(front);
      PiecesPush(Join(front), EndsOf(front), v);
      assert ps == front + [v];
    }
  }

  lemma LastPiece<T>(s: seq<T>, ends: seq<nat>)
    requires Cuts(ends, |s|) && ends != []
    ensures var k := Start(ends, |ends| - 1);
            && k <= |s| && Cuts(ends[..|ends| - 1], |s[..k]|)
            && Pieces(s, ends) == Pieces(s[..k], ends[..|ends| - 1]) + [s[k..]]
            && ends == ends[..|ends| - 1] + [|s|]
  {
    var n := |ends| - 1;
    PiecesFront(s, ends, n);
    assert Piece(s, ends, n) == s[Start(ends, n)..];
    assert Pieces(s, ends) == Pieces(s, ends)[..n] + [Piece(s, ends, n)];
  }

  /** Pieces joined are what was cut, at the same ends. */
  lemma {:induction false} JoinCut<T>(s: seq<T>, ends: seq<nat>)
    requires Cuts(ends, |s|)
    ensures Join(Pieces(s, ends)) == s && EndsOf(Pieces(s, ends)) == ends
    decreases |ends|
  {
    if ends != [] {
      LastPiece(s, ends);
      hide Cuts, Pieces;
      var k := Start(ends, |ends| - 1);
      JoinCut(s[..k], ends[..|ends| - 1]);
      JoinPush(Pieces(s[..k], ends[..|ends| - 1]), s[k..]);
      assert s == s[..k] + s[k..];
    }
  }

  lemma {:induction false} JoinAppend<T>(a: seq<seq<T>>, b: seq<seq<T>>)
    ensures Join(a + b) == Join(a) + Join(b)
  {
    if b == [] {
      assert a + b == a;
    } else {
      JoinAppend(a, b[..|b| - 1]);
      assert (a + b)[..|a + b| - 1] == a + b[..|b| - 1];
      assert Join(a) + (Join(b[..|b| - 1]) + b[|b| - 1]) == (Join(a) + Join(b[..|b| - 1])) + b[|b| - 1];
    }
  }

  /** The first `k` pieces, of what they cut. */
  lemma PiecesFront<T>(s: seq<T>, ends: seq<nat>, k: nat)
    requires Cuts(ends, |s|) && k <= |ends|
    ensures Start(ends, k) <= |s| && Cuts(ends[..k], Start(ends, k))
    ensures Pieces(s[..Start(ends, k)], ends[..k]) == Pieces(s, ends)[..k]
  {
    EndsGrow(ends, |s|);
    assert forall i :: 0 <= i <= k ==> Start(ends[..k], i) == Start(ends, i);
    assert forall i :: 0 <= i < k ==> Start(ends, i) <= ends[i] <= Start(ends, k);
    forall i | 0 <= i < k
      ensures Pieces(s[..Start(ends, k)], ends[..k])[i] == Pieces(s, ends)[..k][i]
    {
      assert Start(ends[..k], i) == Start(ends, i);
      SliceOfFront(s, Start(ends, k), Start(ends, i), ends[i]);
    }
  }

  lemma SliceOfFront<T>(s: seq<T>, k: nat, a: nat, b: nat)
    requires a <= b <= k <= |s|
    ensures s[..k][a..b] == s[a..b]
  {}

  /** The pieces from `k` on joined are what is left from `k`'s start on. */
  lemma PiecesBack<T>(s: seq<T>, ends: seq<nat>, k: nat)
    requires Cuts(ends, |s|) && k <= |ends|
    ensures Start(ends, k) <= |s| && Join(Pieces(s, ends)[k..]) == s[Start(ends, k)..]
  {
    var ps := Pieces(s, ends);
    PiecesFront(s, ends, k);
    JoinCut(s, ends);
    JoinCut(s[..Start(ends, k)], ends[..k]);
    JoinAppend(ps[..k], ps[k..]);
    assert ps == ps[..k] + ps[k..];
  }

  lemma {:induction false} EndsGrow(ends: seq<nat>, len: nat)
    requires Cuts(ends, len)
    ensures forall i, j :: 0 <= i <= j < |ends| ==> ends[i] <= ends[j]
  {
    forall i, j | 0 <= i <= j < |ends|
      ensures ends[i] <= ends[j]
    {
      var k := i;
      while k < j
        invariant i <= k <= j && ends[i] <= ends[k]
      {
        assert Start(ends, k + 1) <= ends[k + 1];
        k := k + 1;
      }
    }
  }

  // ---------------------------------------------------------------- text

  ghost predicate AllValid(ps: seq<seq<byte>>)
  {
    forall i :: 0 <= i < |ps| ==> Valid(ps[i])
  }

  ghost function Texts(ps: seq<seq<byte>>): (ts: seq<seq<unit>>)
    requires AllValid(ps)
    ensures |ts| == |ps|
  {
    seq(|ps|, i requires 0 <= i < |ps| => Text(ps[i]))
  }

  /** Cumulative UTF-16 lengths. */
  function Utf16Ends(ps: seq<seq<byte>>): (ends: seq<nat>)
    ensures |ends| == |ps|
  {
    if ps == [] then []
    else
      var front := ps[..|ps| - 1];
      Utf16Ends(front) + [Start(Utf16Ends(front), |front|) + Utf16Len(ps[|ps| - 1])]
  }

  lemma Utf16EndsPush(ps: seq<seq<byte>>, v: seq<byte>)
    ensures Utf16Ends(ps + [v]) == Utf16Ends(ps) + [Start(Utf16Ends(ps), |ps|) + Utf16Len(v)]
  {
    hide Utf16Len;
    var all := ps + [v];
    assert all[..|all| - 1] == ps && all[|all| - 1] == v;
  }

  lemma TextsPush(ps: seq<seq<byte>>, v: seq<byte>)
    requires AllValid(ps) && Valid(v)
    ensures AllValid(ps + [v]) && Texts(ps + [v]) == Texts(ps) + [Text(v)]
  {
    hide Valid, Text;
  }

  lemma {:induction false} JoinedText(ps: seq<seq<byte>>)
    requires AllValid(ps)
    ensures Valid(Join(ps)) && Text(Join(ps)) == Join(Texts(ps))
  {
    if ps != [] {
      var front, v := ps[..|ps| - 1], ps[|ps| - 1];
      hide Valid, Text, Texts, Join;
      JoinedText(front);
      TextJoin(Join(front), v);
      assert ps == front + [v];
      TextsPush(front, v);
      JoinPush(front, v);
      JoinPush(Texts(front), Text(v));
    }
  }

  lemma {:induction false} Utf16EndsAre(ps: seq<seq<byte>>)
    requires AllValid(ps)
    ensures Utf16Ends(ps) == EndsOf(Texts(ps))
    ensures Start(Utf16Ends(ps), |ps|) == |Join(Texts(ps))|
  {
    if ps != [] {
      hide Valid, Text, Texts, Utf16Len, Utf16Ends, EndsOf, Join;
      var front, v := ps[..|ps| - 1], ps[|ps| - 1];
      Utf16EndsAre(front);
      LenIsText(v);
      assert ps == front + [v];
      Utf16EndsPush(front, v);
      TextsPush(front, v);
      JoinPush(Texts(front), Text(v));
    }
  }

  /** One decode of the joined bytes, cut at the cumulative UTF-16 ends, gives every value's text. */
  lemma CutText(ps: seq<seq<byte>>)
    requires AllValid(ps)
    ensures Valid(Join(ps)) && Cuts(Utf16Ends(ps), |Text(Join(ps))|)
    ensures Pieces(Text(Join(ps)), Utf16Ends(ps)) == Texts(ps)
  {
    JoinedText(ps);
    Utf16EndsAre(ps);
    CutJoined(Texts(ps));
  }

  lemma {:induction false} AsciiParts(ps: seq<seq<byte>>)
    requires Ascii(Join(ps))
    ensures forall i :: 0 <= i < |ps| ==> Ascii(ps[i])
  {
    if ps != [] {
      var front, v := ps[..|ps| - 1], ps[|ps| - 1];
      assert Join(ps)[..|Join(front)|] == Join(front);
      AsciiParts(front);
      assert Join(ps)[|Join(front)|..] == v;
    }
  }

  /** The byte ends serve as UTF-16 ends exactly when the text is ASCII. */
  lemma EndsAgree(ps: seq<seq<byte>>)
    requires AllValid(ps)
    ensures Ascii(Join(ps)) <==> EndsOf(ps) == Utf16Ends(ps)
  {
    JoinedText(ps);
    Utf16EndsAre(ps);
    if Ascii(Join(ps)) {
      AsciiParts(ps);
      forall i | 0 <= i < |ps|
        ensures Texts(ps)[i] == ps[i]
      {
        AsciiText(ps[i]);
      }
      SameEnds(ps, Texts(ps));
    } else {
      AsciiExactly(Join(ps));
      LenIsText(Join(ps));
      assert EndsOf(ps)[|ps| - 1] == |Join(ps)|;
      assert EndsOf(Texts(ps))[|ps| - 1] == |Join(Texts(ps))|;
    }
  }

  lemma {:induction false} SameEnds(ps: seq<seq<byte>>, ts: seq<seq<unit>>)
    requires |ps| == |ts| && forall i :: 0 <= i < |ps| ==> ts[i] == ps[i]
    ensures |Join(ps)| == |Join(ts)| && EndsOf(ps) == EndsOf(ts)
  {
    if ps != [] {
      SameEnds(ps[..|ps| - 1], ts[..|ts| - 1]);
    }
  }
}
