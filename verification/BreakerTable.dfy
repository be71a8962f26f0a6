/** How a breaker string becomes restart sequences: GetOverlappingTokenSequences of gpttype_adapter.cpp. */
module BreakerTable {
  import opened TokenSearch
  import opened DryBreakers

  predicate HasAt(word: string, str: string, i: nat) {
    i + |str| <= |word| && word[i..i + |str|] == str
  }

  /** The string stands whole inside the word. */
  predicate Contains(word: string, str: string) {
    exists i :: 0 <= i <= |word| && HasAt(word, str, i)
  }

  /** The word from `pos` on is a proper, nonempty prefix of the string. */
  predicate Overlaps(word: string, str: string, pos: nat) {
    pos < |word| && |word| - pos < |str| && word[pos..] == str[..|word| - pos]
  }

  function Clamp(tail: seq<Token>, maxTail: int): seq<Token> {
    if maxTail >= 0 && |tail| > maxTail then tail[..maxTail] else tail
  }

  /** The tail for an overlap at `pos`: what is left of the string, tokenized and cut off. */
  function TailFor(word: string, str: string, pos: nat, tokenize: string -> seq<Token>, maxTail: int): seq<Token>
    requires Overlaps(word, str, pos)
  {
    Clamp(tokenize(str[|word| - pos..]), maxTail)
  }

  function AddUnique(tails: seq<seq<Token>>, tail: seq<Token>): seq<seq<Token>> {
    if tail in tails then tails else tails + [tail]
  }

  /** The tails after the overlaps that start before `upTo`. */
  function OverlapTails(tails: seq<seq<Token>>, word: string, str: string, tokenize: string -> seq<Token>,
                        maxTail: int, upTo: nat): seq<seq<Token>>
  {
    if upTo == 0 then tails
    else
      var rest := OverlapTails(tails, word, str, tokenize, maxTail, upTo - 1);
      if Overlaps(word, str, upTo - 1) then AddUnique(rest, TailFor(word, str, upTo - 1, tokenize, maxTail)) else rest
  }

  /** The tails of a token with this text once the string was processed. */
  function WordTails(tails: seq<seq<Token>>, word: string, str: string, tokenize: string -> seq<Token>,
                     maxTail: int): seq<seq<Token>>
  {
    if Contains(word, str) then AddUnique(tails, []) else OverlapTails(tails, word, str, tokenize, maxTail, |word|)
  }

  /** The string adds this tail: the empty one to a token that contains it, else one for each overlap. */
  ghost predicate Adds(word: string, str: string, tokenize: string -> seq<Token>, maxTail: int, tail: seq<Token>) {
    if Contains(word, str) then tail == []
    else
      exists pos ::
        0 <= pos < |word| && Overlaps(word, str, pos) && tail == TailFor(word, str, pos, tokenize, maxTail)
  }

  ghost predicate NoDuplicates(tails: seq<seq<Token>>) {
    forall i, j :: 0 <= i < j < |tails| ==> tails[i] != tails[j]
  }

  lemma {:induction false} OverlapTailsMeaning(tails: seq<seq<Token>>, word: string, str: string,
                                               tokenize: string -> seq<Token>, maxTail: int, upTo: nat, t: seq<Token>)
    ensures var after := OverlapTails(tails, word, str, tokenize, maxTail, upTo);
            && (t in after <==>
                t in tails
                || exists pos :: 0 <= pos < upTo && Overlaps(word, str, pos)
                                 && t == TailFor(word, str, pos, tokenize, maxTail))
            && (NoDuplicates(tails) ==> NoDuplicates(after))
  {
    if upTo > 0 {
      OverlapTailsMeaning(tails, word, str, tokenize, maxTail, upTo - 1, t);
    }
  }

  /** Exactly the tails it adds come to those already there, and no pair is ever doubled. */
  lemma WordTailsMeaning(tails: seq<seq<Token>>, word: string, str: string, tokenize: string -> seq<Token>,
                         maxTail: int, t: seq<Token>)
    ensures var after := WordTails(tails, word, str, tokenize, maxTail);
            && (t in after <==> t in tails || Adds(word, str, tokenize, maxTail, t))
            && (NoDuplicates(tails) ==> NoDuplicates(after))
  {
    OverlapTailsMeaning(tails, word, str, tokenize, maxTail, |word|, t);
  }

  /** The string falls into an end of the word and what is left of it, neither of them empty. */
  predicate FallsApart(word: string, str: string, front: string, back: string) {
    && str == front + back && front != "" && back != ""
    && |front| <= |word| && word[|word| - |front|..] == front
  }

  /** `t` are the first tokens, as many as `most` allows; a negative `most` allows all. */
  predicate FirstOf(t: seq<Token>, tokens: seq<Token>, most: int) {
    |t| == (if most < 0 || |tokens| <= most then |tokens| else most) && t == tokens[..|t|]
  }

  /** What it means for the string to stand whole inside the word. */
  lemma ContainsMeaning(word: string, str: string)
    ensures Contains(word, str) <==> exists before, after :: word == before + str + after
  {
    if Contains(word, str) {
      var i :| 0 <= i <= |word| && HasAt(word, str, i);
      assert word == word[..i] + str + word[i + |str|..];
    }
    if before, after :| word == before + str + after {
      assert HasAt(before + str + after, str, |before|);
    }
  }

  /** And what a string adds to a token that does not contain it: the tokens of what is left behind an overlap. */
  lemma AddsMeaning(word: string, str: string, tokenize: string -> seq<Token>, maxTail: int, t: seq<Token>)
    requires !Contains(word, str)
    ensures Adds(word, str, tokenize, maxTail, t) <==>
            exists front, back :: FallsApart(word, str, front, back) && FirstOf(t, tokenize(back), maxTail)
  {
    if Adds(word, str, tokenize, maxTail, t) {
      var pos :| 0 <= pos < |word| && Overlaps(word, str, pos) && t == TailFor(word, str, pos, tokenize, maxTail);
      var front, back := str[..|word| - pos], str[|word| - pos..];
      assert str == front + back;
      assert FallsApart(word, str, front, back) && FirstOf(t, tokenize(back), maxTail);
    }
    if front, back :| FallsApart(word, str, front, back) && FirstOf(t, tokenize(back), maxTail) {
      var pos := |word| - |front|;
      assert str[..|front|] == front && str[|front|..] == back;
      assert Overlaps(word, str, pos) && t == TailFor(word, str, pos, tokenize, maxTail);
    }
  }

  lemma OverlapStartsString(word: string, str: string, k: nat)
    requires str != "" && k < |word|
    ensures Overlaps(word, str, k) ==> word[k] == str[0]
  {
    if Overlaps(word, str, k) {
      assert word[k..][0] == str[..|word| - k][0];
    }
  }

  /** No tail comes from a stretch of the word without the first character of the string. */
  lemma {:induction false} SkipStretch(tails: seq<seq<Token>>, word: string, str: string,
                                       tokenize: string -> seq<Token>, maxTail: int, from: nat, to: nat)
    requires str != "" && from <= to <= |word| && forall k :: from <= k < to ==> word[k] != str[0]
    ensures OverlapTails(tails, word, str, tokenize, maxTail, to)
            == OverlapTails(tails, word, str, tokenize, maxTail, from)
  {
    if from < to {
      SkipStretch(tails, word, str, tokenize, maxTail, from, to - 1);
      OverlapStartsString(word, str, to - 1);
    }
  }

  class Table {
    var sequences: Breakers

    /** Adds the pair unless it is there. */
    method AddTail(v: Token, tail: seq<Token>)
      modifies this
      ensures TailsOf(sequences, v) == AddUnique(TailsOf(old(sequences), v), tail)
      ensures forall u :: u != v ==> TailsOf(sequences, u) == TailsOf(old(sequences), u)
    {
      var tails := TailsOf(sequences, v);
      var found := false;
      for i := 0 to |tails|
        invariant !found && tail !in tails[..i]
      {
        if tails[i] == tail {
          found := true;
          break;
        }
      }
      if !found {
        sequences := sequences[v := tails + [tail]];
      }
    }

    /** One token: its whole text first, then every place where the string could start in it. */
    method AddWord(v: Token, word: string, str: string, tokenize: string -> seq<Token>, maxTail: int)
      requires str != ""
      modifies this
      ensures TailsOf(sequences, v) == WordTails(TailsOf(old(sequences), v), word, str, tokenize, maxTail)
      ensures forall u :: u != v ==> TailsOf(sequences, u) == TailsOf(old(sequences), u)
    {
      if Contains(word, str) {
        AddTail(v, []);
      } else {
        ghost var tails := TailsOf(sequences, v);
        var pos := FindChar(word, str[0], 0);
        SkipStretch(tails, word, str, tokenize, maxTail, 0, pos);
        while pos < |word|
          invariant pos <= |word| && (pos < |word| ==> word[pos] == str[0])
          invariant TailsOf(sequences, v) == OverlapTails(tails, word, str, tokenize, maxTail, pos)
          invariant forall u :: u != v ==> TailsOf(sequences, u) == TailsOf(old(sequences), u)
        {
          var matches := MatchesToEnd(word, str, pos);
          if matches {
            AddTail(v, TailFor(word, str, pos, tokenize, maxTail));
          }
          var next := FindChar(word, str[0], pos + 1);
          SkipStretch(tails, word, str, tokenize, maxTail, pos + 1, next);
          pos := next;
        }
      }
    }

    /** The whole vocabulary: token `v` has the text `words[v]`. */
    method GetOverlappingTokenSequences(words: seq<string>, str: string, tokenize: string -> seq<Token>, maxTail: int)
      requires str != ""
      modifies this
      ensures forall v :: TailsOf(sequences, v) ==
                var before := TailsOf(old(sequences), v);
                if 0 <= v < |words| then WordTails(before, words[v], str, tokenize, maxTail) else before
    {
      for n := 0 to |words|
        invariant forall v :: TailsOf(sequences, v) ==
                    var before := TailsOf(old(sequences), v);
                    if 0 <= v < n then WordTails(before, words[v], str, tokenize, maxTail) else before
      {
        AddWord(n, words[n], str, tokenize, maxTail);
      }
    }
  }

  /** The next position of `c` in the word, its length if there is none. */
  method FindChar(word: string, c: char, from: nat) returns (pos: nat)
    requires from <= |word|
    ensures from <= pos <= |word| && (pos < |word| ==> word[pos] == c)
    ensures forall k :: from <= k < pos ==> word[k] != c
  {
    pos := from;
    while pos < |word| && word[pos] != c
      invariant from <= pos <= |word|
      invariant forall k :: from <= k < pos ==> word[k] != c
    {
      pos := pos + 1;
    }
  }

  /** Compares from the second character on; since the string is not inside the word, the word ends first. */
  method MatchesToEnd(word: string, str: string, pos: nat) returns (matches: bool)
    requires str != "" && pos < |word| && word[pos] == str[0] && !Contains(word, str)
    ensures matches <==> Overlaps(word, str, pos)
  {
    var i := 1;
    while i < |str| && i + pos < |word|
      invariant 1 <= i <= |str| && i + pos <= |word|
      invariant word[pos..pos + i] == str[..i]
    {
      if word[pos + i] != str[i] {
        assert word[pos..][i] != str[i];
        return false;
      }
      assert word[pos..pos + i + 1] == word[pos..pos + i] + [word[pos + i]] && str[..i + 1] == str[..i] + [str[i]];
      i := i + 1;
    }
    assert i == |str| ==> HasAt(word, str, pos);
    assert word[pos..] == word[pos..pos + i];
    return true;
  }
}
