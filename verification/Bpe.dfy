/** QwenModel.bpe: a token split into bytes, of which the best ranked neighbours are merged as long as possible. */
module Bpe {
  type Bytes = seq<bv8>
  type Ranks = map<Bytes, int>

  /** A limit below which ranks must lie; None is no limit. */
  datatype Limit = None | Below(rank: int) {
    predicate Allows(rank: int) {
      this == None || rank < this.rank
    }

    predicate Within(other: Limit) {
      other == None || (this.Below? && this.rank <= other.rank)
    }
  }

  /** The parts `i` and `i + 1` together are ranked. */
  predicate Ranked(ranks: Ranks, parts: seq<Bytes>, i: int) {
    0 <= i < |parts| - 1 && parts[i] + parts[i + 1] in ranks
  }

  function RankAt(ranks: Ranks, parts: seq<Bytes>, i: int): int
    requires Ranked(ranks, parts, i)
  {
    ranks[parts[i] + parts[i + 1]]
  }

  /** The first of the best ranked pairs, among the first `n`. */
  ghost predicate IsBest(ranks: Ranks, parts: seq<Bytes>, n: nat, i: int) {
    && i < n && Ranked(ranks, parts, i)
    && forall j :: j < n && Ranked(ranks, parts, j) ==>
         && RankAt(ranks, parts, i) <= RankAt(ranks, parts, j)
         && (j < i ==> RankAt(ranks, parts, i) < RankAt(ranks, parts, j))
  }

  ghost predicate NoneRanked(ranks: Ranks, parts: seq<Bytes>, n: nat) {
    forall j :: j < n ==> !Ranked(ranks, parts, j)
  }

  /** No pair can be merged any more. */
  ghost predicate Settled(ranks: Ranks, parts: seq<Bytes>, limit: Limit) {
    forall i :: Ranked(ranks, parts, i) ==> !limit.Allows(RankAt(ranks, parts, i))
  }

  function Merge(parts: seq<Bytes>, i: nat): (r: seq<Bytes>)
    requires i + 1 < |parts|
    ensures |r| == |parts| - 1
  {
    parts[..i] + [parts[i] + parts[i + 1]] + parts[i + 2..]
  }

  /** The best ranked pair, which exists when one can be merged. */
  ghost function Best(ranks: Ranks, parts: seq<Bytes>, limit: Limit): (i: nat)
    requires !Settled(ranks, parts, limit)
    ensures IsBest(ranks, parts, |parts|, i) && limit.Allows(RankAt(ranks, parts, i))
  {
    BestExists(ranks, parts, |parts|);
    var i :| IsBest(ranks, parts, |parts|, i);
    i
  }

  lemma {:induction false} BestExists(ranks: Ranks, parts: seq<Bytes>, n: nat)
    ensures NoneRanked(ranks, parts, n) || exists i :: IsBest(ranks, parts, n, i)
  {
    if n > 0 {
      BestExists(ranks, parts, n - 1);
      if !NoneRanked(ranks, parts, n - 1) {
        var i :| IsBest(ranks, parts, n - 1, i);
        if Ranked(ranks, parts, n - 1) && RankAt(ranks, parts, n - 1) < RankAt(ranks, parts, i) {
          assert IsBest(ranks, parts, n, n - 1);
        } else {
          assert IsBest(ranks, parts, n, i);
        }
      } else if Ranked(ranks, parts, n - 1) {
        assert IsBest(ranks, parts, n, n - 1);
      }
    }
  }

  /** Merging the best ranked pair until no pair lies within the limit. */
  ghost function Merged(ranks: Ranks, parts: seq<Bytes>, limit: Limit): seq<Bytes>
    decreases |parts|
  {
    if Settled(ranks, parts, limit) then parts else Merged(ranks, Merge(parts, Best(ranks, parts, limit)), limit)
  }

  function Singles(token: Bytes): (r: seq<Bytes>)
    ensures |r| == |token|
  {
    seq(|token|, i requires 0 <= i < |token| => [token[i]])
  }

  /** bpe, loop for loop. */
  method Bpe(ranks: Ranks, token: Bytes, maxRank: Limit) returns (parts: seq<Bytes>)
    ensures parts == Merged(ranks, Singles(token), maxRank)
  {
    parts := Singles(token);
    while true
      invariant Merged(ranks, parts, maxRank) == Merged(ranks, Singles(token), maxRank)
      decreases |parts|
    {
      var best, rank := FindBest(ranks, parts);
      if best == -1 || (maxRank.Below? && rank >= maxRank.rank) {
        break;
      }
      OnlyBest(ranks, parts, maxRank, best);
      parts := parts[..best] + [parts[best] + parts[best + 1]] + parts[best + 2..];
    }
  }

  /** The inner loop of bpe: the pair of minimal rank and its rank, or -1. */
  method FindBest(ranks: Ranks, parts: seq<Bytes>) returns (best: int, rank: int)
    ensures if best == -1 then NoneRanked(ranks, parts, |parts|)
            else IsBest(ranks, parts, |parts|, best) && rank == RankAt(ranks, parts, best)
  {
    best, rank := -1, 0;
    var i := 0;
    while i < |parts| - 1
      invariant 0 <= i && (i < |parts| || i == 0)
      invariant if best == -1 then NoneRanked(ranks, parts, i)
                else IsBest(ranks, parts, i, best) && rank == RankAt(ranks, parts, best)
    {
      var pair := parts[i] + parts[i + 1];
      if pair in ranks && (best == -1 || ranks[pair] < rank) {
        best, rank := i, ranks[pair];
      }
      i := i + 1;
    }
  }

  lemma OnlyBest(ranks: Ranks, parts: seq<Bytes>, limit: Limit, i: int)
    requires IsBest(ranks, parts, |parts|, i) && limit.Allows(RankAt(ranks, parts, i))
    ensures !Settled(ranks, parts, limit) && Best(ranks, parts, limit) == i
  {
  }

  /** Pairs written out: the first of those with the least rank, if that lies within the limit, is merged next. */
  lemma MergedNext(ranks: Ranks, parts: seq<Bytes>, limit: Limit, i: nat)
    requires i + 1 < |parts| && parts[i] + parts[i + 1] in ranks
    requires limit.Below? ==> ranks[parts[i] + parts[i + 1]] < limit.rank
    requires forall j :: 0 <= j < |parts| - 1 && parts[j] + parts[j + 1] in ranks ==>
               && ranks[parts[i] + parts[i + 1]] <= ranks[parts[j] + parts[j + 1]]
               && (j < i ==> ranks[parts[i] + parts[i + 1]] < ranks[parts[j] + parts[j + 1]])
    ensures Merged(ranks, parts, limit)
         == Merged(ranks, parts[..i] + [parts[i] + parts[i + 1]] + parts[i + 2..], limit)
  {
    assert Ranked(ranks, parts, i) && limit.Allows(RankAt(ranks, parts, i));
    forall j: nat | j < |parts| && Ranked(ranks, parts, j)
      ensures RankAt(ranks, parts, i) <= RankAt(ranks, parts, j)
      ensures j < i ==> RankAt(ranks, parts, i) < RankAt(ranks, parts, j)
    {
    }
    assert IsBest(ranks, parts, |parts|, i);
    OnlyBest(ranks, parts, limit, i);
  }

  lemma {:induction false} NeverMoreParts(ranks: Ranks, parts: seq<Bytes>, limit: Limit)
    ensures |Merged(ranks, parts, limit)| <= |parts|
    decreases |parts|
  {
    if !Settled(ranks, parts, limit) {
      NeverMoreParts(ranks, Merge(parts, Best(ranks, parts, limit)), limit);
    }
  }

  /** Nothing is merged if and only if no two neighbours together have a rank within the limit. */
  lemma MergedStops(ranks: Ranks, parts: seq<Bytes>, limit: Limit)
    ensures Merged(ranks, parts, limit) == parts
       <==> forall i :: 0 <= i < |parts| - 1 && parts[i] + parts[i + 1] in ranks ==>
              limit.Below? && ranks[parts[i] + parts[i + 1]] >= limit.rank
  {
    if Settled(ranks, parts, limit) {
      forall i | 0 <= i < |parts| - 1 && parts[i] + parts[i + 1] in ranks
        ensures limit.Below? && ranks[parts[i] + parts[i + 1]] >= limit.rank
      {
        assert Ranked(ranks, parts, i) && !limit.Allows(RankAt(ranks, parts, i));
      }
    } else {
      var i := Best(ranks, parts, limit);
      assert Ranked(ranks, parts, i) && limit.Allows(RankAt(ranks, parts, i));
      NeverMoreParts(ranks, Merge(parts, i), limit);
    }
  }

  // ---------------------------------------------------------------- what the parts are

  function Concat(parts: seq<Bytes>): Bytes {
    if parts == [] then [] else parts[0] + Concat(parts[1..])
  }

  lemma {:induction false} ConcatJoin(a: seq<Bytes>, b: seq<Bytes>)
    ensures Concat(a + b) == Concat(a) + Concat(b)
  {
    if a == [] {
      assert a + b == b;
    } else {
      assert (a + b)[1..] == a[1..] + b;
      ConcatJoin(a[1..], b);
    }
  }

  lemma {:induction false} ConcatSingles(token: Bytes)
    ensures Concat(Singles(token)) == token
  {
    if token != [] {
      assert Singles(token)[1..] == Singles(token[1..]);
      ConcatSingles(token[1..]);
    }
  }

  lemma ConcatOne(x: Bytes)
    ensures Concat([x]) == x
  {
  }

  lemma ConcatTwo(x: Bytes, y: Bytes)
    ensures Concat([x, y]) == x + y
  {
    assert [x, y][1..] == [y];
    ConcatOne(y);
  }

  lemma JoinTwo(front: seq<Bytes>, x: Bytes, y: Bytes, back: seq<Bytes>)
    ensures Concat(front + [x, y] + back) == Concat(front + [x + y] + back)
  {
    ConcatTwo(x, y);
    ConcatOne(x + y);
    ConcatJoin(front, [x, y]);
    ConcatJoin(front, [x + y]);
    ConcatJoin(front + [x, y], back);
    ConcatJoin(front + [x + y], back);
  }

  lemma Around(parts: seq<Bytes>, i: nat)
    requires i + 1 < |parts|
    ensures parts == parts[..i] + [parts[i], parts[i + 1]] + parts[i + 2..]
  {
  }

  lemma ConcatMerge(parts: seq<Bytes>, i: nat)
    requires i + 1 < |parts|
    ensures Concat(Merge(parts, i)) == Concat(parts)
  {
    Around(parts, i);
    JoinTwo(parts[..i], parts[i], parts[i + 1], parts[i + 2..]);
  }

  /** A part is a byte or a key ranked within the limit. */
  predicate IsPart(ranks: Ranks, part: Bytes, limit: Limit) {
    |part| == 1 || (|part| > 1 && part in ranks && limit.Allows(ranks[part]))
  }

  predicate AreParts(ranks: Ranks, parts: seq<Bytes>, limit: Limit) {
    forall i :: 0 <= i < |parts| ==> IsPart(ranks, parts[i], limit)
  }

  /** What merging keeps, and where it ends. */
  lemma {:induction false} MergedMeaning(ranks: Ranks, parts: seq<Bytes>, limit: Limit)
    requires AreParts(ranks, parts, limit)
    ensures var r := Merged(ranks, parts, limit);
            Concat(r) == Concat(parts) && AreParts(ranks, r, limit) && Settled(ranks, r, limit)
    decreases |parts|
  {
    if !Settled(ranks, parts, limit) {
      var i := Best(ranks, parts, limit);
      ConcatMerge(parts, i);
      assert IsPart(ranks, parts[i], limit) && IsPart(ranks, parts[i + 1], limit);
      MergedMeaning(ranks, Merge(parts, i), limit);
    }
  }

  /**
   The parts of a token join to it, each is a byte or a key ranked within the limit, and no two neighbours
   could still be merged.
   */
  lemma TokenParts(ranks: Ranks, token: Bytes, limit: Limit)
    ensures var r := Merged(ranks, Singles(token), limit);
            Concat(r) == token && AreParts(ranks, r, limit) && Settled(ranks, r, limit)
  {
    ConcatSingles(token);
    MergedMeaning(ranks, Singles(token), limit);
  }

  /** With its own rank as the limit, a token of several bytes never comes back in one piece. */
  lemma OwnRankSplits(ranks: Ranks, token: Bytes)
    requires |token| >= 2 && token in ranks
    ensures |Merged(ranks, Singles(token), Below(ranks[token]))| >= 2
  {
    var r := Merged(ranks, Singles(token), Below(ranks[token]));
    TokenParts(ranks, token, Below(ranks[token]));
    assert r != [] ==> IsPart(ranks, r[0], Below(ranks[token]));
    if |r| == 1 {
      ConcatOne(r[0]);
      assert false;
    }
  }

  // ---------------------------------------------------------------- limits

  /** Merging under a limit is a first stretch of merging under any wider one. */
  lemma {:induction false} WiderContinues(ranks: Ranks, parts: seq<Bytes>, limit: Limit, wider: Limit)
    requires limit.Within(wider)
    ensures Merged(ranks, Merged(ranks, parts, limit), wider) == Merged(ranks, parts, wider)
    decreases |parts|
  {
    if !Settled(ranks, parts, limit) {
      var i := Best(ranks, parts, limit);
      OnlyBest(ranks, parts, wider, i);
      WiderContinues(ranks, Merge(parts, i), limit, wider);
    }
  }

  /** Two parts left under the token's own rank: any wider limit puts the token together. */
  lemma TwoPartsRejoin(ranks: Ranks, token: Bytes, wider: Limit)
    requires token in ranks && wider.Allows(ranks[token])
    requires |Merged(ranks, Singles(token), Below(ranks[token]))| == 2
    ensures Merged(ranks, Singles(token), wider) == [token]
  {
    var limit := Below(ranks[token]);
    var r := Merged(ranks, Singles(token), limit);
    TokenParts(ranks, token, limit);
    assert r == [r[0], r[1]];
    ConcatTwo(r[0], r[1]);
    WiderContinues(ranks, Singles(token), limit, wider);
    assert Ranked(ranks, r, 0);
    assert IsBest(ranks, r, |r|, 0);
    OnlyBest(ranks, r, wider, 0);
    assert Merge(r, 0) == [token];
    assert Settled(ranks, [token], wider);
  }

  /**
   What the vocabulary writer asserts of a token: it splits in two under its own rank. With ranks that differ,
   this holds if and only if merging up to and including that rank puts the token together.
   */
  lemma SplitsInTwo(ranks: Ranks, token: Bytes)
    requires |token| >= 2 && token in ranks
    requires forall k, k' :: k in ranks && k' in ranks && ranks[k] == ranks[k'] ==> k == k'
    ensures |Merged(ranks, Singles(token), Below(ranks[token]))| == 2
       <==> Merged(ranks, Singles(token), Below(ranks[token] + 1)) == [token]
  {
    var limit, wider := Below(ranks[token]), Below(ranks[token] + 1);
    var r := Merged(ranks, Singles(token), limit);
    TokenParts(ranks, token, limit);
    if |r| == 2 {
      TwoPartsRejoin(ranks, token, wider);
    } else {
      OwnRankSplits(ranks, token);
      WiderContinues(ranks, Singles(token), limit, wider);
      forall i | Ranked(ranks, r, i)
        ensures !wider.Allows(RankAt(ranks, r, i))
      {
        ShorterThanWhole(ranks, r, limit, i);
      }
      assert Settled(ranks, r, wider);
    }
  }

  lemma {:induction false} AtLeastOneEach(ranks: Ranks, parts: seq<Bytes>, limit: Limit)
    requires AreParts(ranks, parts, limit)
    ensures |Concat(parts)| >= |parts|
  {
    if parts != [] {
      assert IsPart(ranks, parts[0], limit);
      assert AreParts(ranks, parts[1..], limit);
      AtLeastOneEach(ranks, parts[1..], limit);
    }
  }

  /** Of three parts or more, two together are not the whole. */
  lemma ShorterThanWhole(ranks: Ranks, parts: seq<Bytes>, limit: Limit, i: nat)
    requires AreParts(ranks, parts, limit) && |parts| >= 3 && i + 1 < |parts|
    ensures parts[i] + parts[i + 1] != Concat(parts)
  {
    var front, pair, back := parts[..i], [parts[i], parts[i + 1]], parts[i + 2..];
    assert parts == front + (pair + back);
    ConcatJoin(front, pair + back);
    ConcatJoin(pair, back);
    ConcatTwo(parts[i], parts[i + 1]);
    AtLeastOneEach(ranks, front, limit);
    AtLeastOneEach(ranks, back, limit);
  }

  // ---------------------------------------------------------------- the vocabulary

  datatype Option<T> = Absent | Present(value: T)

  /** The token splits in two under its own rank. */
  ghost predicate Splits(ranks: Ranks, token: Bytes)
    requires token in ranks
  {
    |Merged(ranks, Singles(token), Below(ranks[token]))| == 2
  }

  /** The tokens of more than one byte, or none. */
  function Longer(tokens: seq<Bytes>): seq<Bytes> {
    if tokens == [] then [] else Longer(tokens[..|tokens| - 1]) + KeptIf(tokens[|tokens| - 1])
  }

  function KeptIf(token: Bytes): seq<Bytes> {
    if |token| == 1 then [] else [token]
  }

  /** The places of the tokens of more than one byte, or none, among the first `n`. */
  ghost function LongerPlaces(tokens: seq<Bytes>, n: nat): set<nat>
    requires n <= |tokens|
  {
    set i: nat | i < n && |tokens[i]| != 1
  }

  lemma NextPlace(tokens: seq<Bytes>, n: nat)
    requires n < |tokens|
    ensures |LongerPlaces(tokens, n + 1)| == |LongerPlaces(tokens, n)| + if |tokens[n]| == 1 then 0 else 1
  {
    var was, now := LongerPlaces(tokens, n), LongerPlaces(tokens, n + 1);
    assert now == if |tokens[n]| == 1 then was else was + {n};
  }

  lemma LongerNext(tokens: seq<Bytes>, n: nat)
    requires n < |tokens| && Listed(tokens, Longer(tokens[..n]), n)
    ensures Listed(tokens, Longer(tokens[..n + 1]), n + 1)
  {
    assert tokens[..n + 1][..n] == tokens[..n];
    NextListed(tokens, Longer(tokens[..n]), n);
  }

  /** Token `i` stands in `longer` behind the longer ones that precede it. */
  ghost predicate InPlace(tokens: seq<Bytes>, longer: seq<Bytes>, i: nat)
    requires i < |tokens|
  {
    var k := |LongerPlaces(tokens, i)|;
    k < |longer| && longer[k] == tokens[i]
  }

  /** `longer` lists the longer ones of the first `n` tokens. */
  ghost predicate Listed(tokens: seq<Bytes>, longer: seq<Bytes>, n: nat)
    requires n <= |tokens|
  {
    && |longer| == |LongerPlaces(tokens, n)|
    && forall i: nat :: i < n && |tokens[i]| != 1 ==> InPlace(tokens, longer, i)
  }

  lemma NextListed(tokens: seq<Bytes>, longer: seq<Bytes>, n: nat)
    requires n < |tokens| && Listed(tokens, longer, n)
    ensures Listed(tokens, longer + KeptIf(tokens[n]), n + 1)
  {
    NextPlace(tokens, n);
  }

  /** Each longer token stands behind as many others as precede it in the vocabulary; there are no others. */
  lemma {:induction false} LongerMeaning(tokens: seq<Bytes>, n: nat)
    requires n <= |tokens|
    ensures Listed(tokens, Longer(tokens[..n]), n)
  {
    if n > 0 {
      LongerMeaning(tokens, n - 1);
      LongerNext(tokens, n - 1);
    } else {
      NoneListed(tokens);
    }
  }

  lemma NoneListed(tokens: seq<Bytes>)
    ensures Listed(tokens, Longer(tokens[..0]), 0)
  {
    assert LongerPlaces(tokens, 0) == {};
  }

  /** Each pair of parts joins to the token it was made from. */
  ghost predicate JoinTo(merges: seq<seq<Bytes>>, tokens: seq<Bytes>) {
    |merges| == |tokens| && forall i :: 0 <= i < |merges| ==> |merges[i]| == 2 && Concat(merges[i]) == tokens[i]
  }

  /** The loop over the vocabulary: a pair of parts for each longer token, or a failed assertion. */
  method Merges(ranks: Ranks, tokens: seq<Bytes>) returns (r: Option<seq<seq<Bytes>>>)
    requires forall token :: token in tokens ==> token in ranks
    ensures r.Present? <==> forall token :: token in tokens && |token| != 1 ==> Splits(ranks, token)
    ensures r.Present? ==> JoinTo(r.value, Longer(tokens))
  {
    var merges: seq<seq<Bytes>> := [];
    for i := 0 to |tokens|
      invariant forall token :: token in tokens[..i] && |token| != 1 ==> Splits(ranks, token)
      invariant JoinTo(merges, Longer(tokens[..i]))
    {
      var token := tokens[i];
      assert tokens[..i + 1][..i] == tokens[..i];
      if |token| == 1 {
        continue;
      }
      var merged := Bpe(ranks, token, Below(ranks[token]));
      if |merged| != 2 {
        assert !Splits(ranks, token);
        return Absent;
      }
      TokenParts(ranks, token, Below(ranks[token]));
      merges := merges + [merged];
    }
    assert tokens[..|tokens|] == tokens;
    return Present(merges);
  }
}
