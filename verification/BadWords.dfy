/**
 The bad-words logits processor (vllm/logits_process.py).

 At each step the processor looks only at the last few tokens and masks single tokens.
 `NoBadWordIsGenerated` is the guarantee that this local mask gives over whole generations.
 */
module BadWords {
  import opened Wrappers

  /** A logit: a float without rounding. */
  datatype Logit = Real(value: real) | NegInf | PosInf | NaN

  function Add(a: Logit, b: Logit): Logit {
    match (a, b)
    case (NaN, _) => NaN
    case (_, NaN) => NaN
    case (Real(x), Real(y)) => Real(x + y)
    case (Real(_), _) => b
    case (_, Real(_)) => a
    case (NegInf, NegInf) => NegInf
    case (PosInf, PosInf) => PosInf
    case _ => NaN
  }

  const NEUTRAL := Real(0.0)

  function Bias(forbidden: bool): Logit {
    if forbidden then NegInf else NEUTRAL
  }

  datatype Error = ValueError(invalidTokenIds: seq<int>) | IndexError | RuntimeError

  type Word = seq<int>

  // ---------------------------------------------------------------------------------
  // What the processor is for.

  /** The last `n` tokens: `tokens[-n:]` for positive `n`. */
  function LastOf(tokens: seq<int>, n: nat): seq<int>
    requires n <= |tokens|
  {
    tokens[|tokens| - n..]
  }

  /** Choosing `token` after `past` would complete the word. */
  ghost predicate Completes(word: Word, past: seq<int>, token: int) {
    && word != []
    && |word| - 1 <= |past|
    && word[|word| - 1] == token
    && word[..|word| - 1] == LastOf(past, |word| - 1)
  }

  ghost predicate CompletesSome(words: seq<Word>, past: seq<int>, token: int) {
    exists w :: w in words && Completes(w, past, token)
  }

  /** The word appears contiguously in the output, ending just before position `end`. */
  ghost predicate EndsAt(word: Word, output: seq<int>, end: nat) {
    |word| <= end <= |output| && output[end - |word|..end] == word
  }

  /** Completing a word is the only way to make it appear. */
  lemma CompletesIffEndsAt(word: Word, output: seq<int>, k: nat)
    requires word != [] && k < |output|
    ensures Completes(word, output[..k], output[k]) <==> EndsAt(word, output, k + 1)
  {
    var past, n := output[..k], |word|;
    if n <= k + 1 {
      var tail := output[k + 1 - n..k + 1];
      assert tail == output[k + 1 - n..k] + [output[k]];
      assert LastOf(past, n - 1) == output[k + 1 - n..k];
      assert word == word[..n - 1] + [word[n - 1]];
    }
  }

  // ---------------------------------------------------------------------------------
  // The mask as a function.

  ghost predicate InVocabulary(words: seq<Word>, vocabSize: nat) {
    forall w, t :: w in words && t in w ==> 0 <= t < vocabSize
  }

  /** What the processed logits are. */
  ghost function Masked(words: seq<Word>, past: seq<int>, logits: seq<Logit>): seq<Logit> {
    seq(|logits|, t requires 0 <= t < |logits| =>
      if CompletesSome(words, past, t) then Add(logits[t], NegInf) else logits[t])
  }

  /** A masked logit is minus infinity exactly when the original was finite or minus infinity. */
  lemma MaskedIsNegInf(words: seq<Word>, past: seq<int>, logits: seq<Logit>, t: nat)
    requires t < |logits| && CompletesSome(words, past, t)
    ensures Masked(words, past, logits)[t] == NegInf <==> logits[t].Real? || logits[t].NegInf?
    ensures !AboveNegInf(Masked(words, past, logits)[t])
  {
  }

  // ---------------------------------------------------------------------------------
  // Whole generations.

  /** The comparison `logit > -inf`. */
  predicate AboveNegInf(l: Logit) {
    l.Real? || l.PosInf?
  }

  /** Every token of the output was chosen with a masked logit above minus infinity. */
  ghost predicate Generated(words: seq<Word>, output: seq<int>, logitsAt: seq<seq<Logit>>) {
    && |logitsAt| == |output|
    && forall k :: 0 <= k < |output| ==>
         0 <= output[k] < |logitsAt[k]| && AboveNegInf(Masked(words, output[..k], logitsAt[k])[output[k]])
  }

  ghost predicate Clean(words: seq<Word>, output: seq<int>) {
    forall w, end :: w in words && w != [] && 0 <= end <= |output| ==> !EndsAt(w, output, end)
  }

  /** No bad word ever appears in a generated output, whatever the model's logits are. */
  lemma NoBadWordIsGenerated(words: seq<Word>, output: seq<int>, logitsAt: seq<seq<Logit>>)
    requires Generated(words, output, logitsAt)
    ensures Clean(words, output)
  {
    forall w, end | w in words && w != [] && 0 <= end <= |output| ensures !EndsAt(w, output, end) {
      if EndsAt(w, output, end) {
        var k := end - 1;
        CompletesIffEndsAt(w, output, k);
        assert CompletesSome(words, output[..k], output[k]);
        MaskedIsNegInf(words, output[..k], logitsAt[k], output[k]);
      }
    }
  }

  /** And nothing else is forbidden: along an output without bad words every chosen token keeps exactly
      its original logit. */
  lemma CleanOutputIsUntouched(words: seq<Word>, output: seq<int>, logits: seq<Logit>, k: nat)
    requires Clean(words, output) && k < |output| && 0 <= output[k] < |logits|
    ensures Masked(words, output[..k], logits)[output[k]] == logits[output[k]]
  {
    if CompletesSome(words, output[..k], output[k]) {
      var w :| w in words && Completes(w, output[..k], output[k]);
      CompletesIffEndsAt(w, output, k);
    }
  }

  // ---------------------------------------------------------------------------------
  // The processor.

  ghost function InvalidIn(word: Word, vocabSize: nat): seq<int> {
    if word == [] then []
    else
      var before, t := InvalidIn(word[..|word| - 1], vocabSize), word[|word| - 1];
      if t < 0 || t >= vocabSize then before + [t] else before
  }

  ghost function Invalid(words: seq<Word>, vocabSize: nat): seq<int> {
    if words == [] then []
    else Invalid(words[..|words| - 1], vocabSize) + InvalidIn(words[|words| - 1], vocabSize)
  }

  lemma {:induction false} InvalidInIsEmpty(word: Word, vocabSize: nat)
    ensures InvalidIn(word, vocabSize) == [] <==> forall t :: t in word ==> 0 <= t < vocabSize
  {
    if word != [] {
      var init, last := word[..|word| - 1], word[|word| - 1];
      InvalidInIsEmpty(init, vocabSize);
      assert word == init + [last];
      assert last in word && forall t :: t in word <==> t in init || t == last;
    }
  }

  lemma {:induction false} InvalidIsEmpty(words: seq<Word>, vocabSize: nat)
    ensures Invalid(words, vocabSize) == [] <==> InVocabulary(words, vocabSize)
  {
    if words != [] {
      var init, last := words[..|words| - 1], words[|words| - 1];
      InvalidIsEmpty(init, vocabSize);
      InvalidInIsEmpty(last, vocabSize);
      assert words == init + [last];
      assert last in words && forall w :: w in words <==> w in init || w == last;
    }
  }

  /** All token ids of the words, in order. */
  ghost function TokenIds(words: seq<Word>): seq<int> {
    if words == [] then [] else TokenIds(words[..|words| - 1]) + words[|words| - 1]
  }

  /** `out` holds the token ids out of range, in order: those at the positions `at`. */
  ghost predicate ListsInvalid(out: seq<int>, all: seq<int>, vocabSize: nat, at: seq<nat>) {
    && |out| == |at|
    && (forall i, j :: 0 <= i < j < |at| ==> at[i] < at[j])
    && (forall k :: 0 <= k < |at| ==> at[k] < |all| && out[k] == all[at[k]])
    && (forall i :: i in at <==> 0 <= i < |all| && !(0 <= all[i] < vocabSize))
  }

  lemma ListsMore(out: seq<int>, all: seq<int>, vocabSize: nat, at: seq<nat>, t: int)
    requires ListsInvalid(out, all, vocabSize, at)
    ensures !(0 <= t < vocabSize) ==> ListsInvalid(out + [t], all + [t], vocabSize, at + [|all|])
    ensures 0 <= t < vocabSize ==> ListsInvalid(out, all + [t], vocabSize, at)
  {
  }

  lemma {:induction false} ListsWord(out: seq<int>, all: seq<int>, vocabSize: nat, at: seq<nat>, word: Word)
    returns (at': seq<nat>)
    requires ListsInvalid(out, all, vocabSize, at)
    ensures ListsInvalid(out + InvalidIn(word, vocabSize), all + word, vocabSize, at')
  {
    if word == [] {
      at' := at;
      assert out + [] == out && all + [] == all;
    } else {
      var init, t := word[..|word| - 1], word[|word| - 1];
      var before := InvalidIn(init, vocabSize);
      at' := ListsWord(out, all, vocabSize, at, init);
      ListsMore(out + before, all + init, vocabSize, at', t);
      assert (all + init) + [t] == all + word && (out + before) + [t] == out + (before + [t]);
      if !(0 <= t < vocabSize) { at' := at' + [|all + init|]; }
    }
  }

  lemma {:induction false} InvalidLists(words: seq<Word>, vocabSize: nat) returns (at: seq<nat>)
    ensures ListsInvalid(Invalid(words, vocabSize), TokenIds(words), vocabSize, at)
  {
    if words == [] {
      at := [];
    } else {
      var init := words[..|words| - 1];
      at := InvalidLists(init, vocabSize);
      at := ListsWord(Invalid(init, vocabSize), TokenIds(init), vocabSize, at, words[|words| - 1]);
    }
  }

  /** The words after the first `n` of length at least two that `token` would complete. */
  ghost predicate CompletesLong(words: seq<Word>, n: nat, past: seq<int>, token: int)
    requires n <= |words|
  {
    exists i :: 0 <= i < n && |words[i]| >= 2 && Completes(words[i], past, token)
  }

  lemma SingleOrLong(words: seq<Word>, past: seq<int>, token: int)
    ensures CompletesSome(words, past, token) <==> [token] in words || CompletesLong(words, |words|, past, token)
  {
    if CompletesSome(words, past, token) {
      var w :| w in words && Completes(w, past, token);
      var i :| 0 <= i < |words| && words[i] == w;
      if |w| < 2 { assert w == [token]; }
    }
    if [token] in words { assert Completes([token], past, token); }
    if CompletesLong(words, |words|, past, token) {
      var i :| 0 <= i < |words| && |words[i]| >= 2 && Completes(words[i], past, token);
      assert words[i] in words;
    }
  }

  class NoBadWordsLogitsProcessor {
    const badWordsIds: seq<Word>
    var wordBias: Option<seq<Logit>>

    ghost predicate Valid()
      reads this
    {
      wordBias.Some? ==> InVocabulary(badWordsIds, |wordBias.value|) && SingleBiasFits(badWordsIds, wordBias.value)
    }

    constructor (badWordsIds: seq<Word>)
      ensures this.badWordsIds == badWordsIds && wordBias == None && Valid()
    {
      this.badWordsIds := badWordsIds;
      this.wordBias := None;
    }

    method CheckTokenIdsBounds(vocabSize: nat) returns (invalid: seq<int>, ghost at: seq<nat>)
      ensures invalid == Invalid(badWordsIds, vocabSize)
      ensures ListsInvalid(invalid, TokenIds(badWordsIds), vocabSize, at)
    {
      invalid := [];
      for i := 0 to |badWordsIds|
        invariant invalid == Invalid(badWordsIds[..i], vocabSize)
      {
        var word := badWordsIds[i];
        ghost var before := invalid;
        for j := 0 to |word|
          invariant invalid == before + InvalidIn(word[..j], vocabSize)
        {
          if word[j] < 0 || word[j] >= vocabSize { invalid := invalid + [word[j]]; }
          assert word[..j + 1][..j] == word[..j];
        }
        assert word[..|word|] == word;
        assert badWordsIds[..i + 1][..i] == badWordsIds[..i];
      }
      assert badWordsIds[..|badWordsIds|] == badWordsIds;
      at := InvalidLists(badWordsIds, vocabSize);
    }

    method InitWordBias(vocabSize: nat) returns (invalid: seq<int>)
      requires wordBias.None?
      modifies this
      ensures invalid == Invalid(badWordsIds, vocabSize) && Valid()
      ensures invalid == [] ==> wordBias.Some? && |wordBias.value| == vocabSize
      ensures invalid != [] ==> wordBias.None?
    {
      ghost var at;
      invalid, at := CheckTokenIdsBounds(vocabSize);
      InvalidIsEmpty(badWordsIds, vocabSize);
      if invalid != [] { return; }
      var bias := seq(vocabSize, _ => NEUTRAL);
      for i := 0 to |badWordsIds|
        invariant |bias| == vocabSize
        invariant SingleBiasFits(badWordsIds[..i], bias)
      {
        var word := badWordsIds[i];
        SingleBiasGrows(badWordsIds, bias, i, i + 1, word);
        if |word| == 1 {
          assert word[0] in word && word in badWordsIds;
          bias := bias[word[0] := NegInf];
        }
      }
      assert badWordsIds[..|badWordsIds|] == badWordsIds;
      wordBias := Some(bias);
    }

    /** The body of the loop: one word of two or more tokens that the past is long enough for. */
    method AddWord(word: Word, past: seq<int>, bias: seq<Logit>, ghost i: nat, ghost next: nat)
      returns (ok: bool, after: seq<Logit>)
      requires i < next == i + 1 <= |badWordsIds| && badWordsIds[i] == word && NoNegativeIds(badWordsIds)
      requires |word| != 1 && |word| <= |past| + 1 && LastTokenBiasFits(badWordsIds, past, bias, i)
      ensures ok <==> !RaisesAt(word, past, |bias|)
      ensures ok ==> |after| == |bias| && LastTokenBiasFits(badWordsIds, past, after, next)
    {
      if word == [] { return false, bias; }
      var last := word[|word| - 1];
      assert last in word && word in badWordsIds;
      if last >= |bias| { return false, bias; }
      var isMatch := word[..|word| - 1] == LastOf(past, |word| - 1);
      ok, after := true, Biased(bias, last, isMatch);
      forall t | 0 <= t < |bias| ensures after[t] == Bias(CompletesLong(badWordsIds, next, past, t)) {
        MatchDecides(badWordsIds, word, past, i, next, last, isMatch, t);
        BiasAt(bias, last, isMatch, t, CompletesLong(badWordsIds, i, past, t), CompletesLong(badWordsIds, next, past, t));
      }
    }

    /** The bias of the words of two or more tokens whose prefix has just been generated. */
    method LastTokenBias(past: seq<int>, vocabSize: nat) returns (ok: bool, bias: seq<Logit>)
      requires NoNegativeIds(badWordsIds)
      ensures ok <==> !Raises(badWordsIds, past, vocabSize)
      ensures ok ==> |bias| == vocabSize && LastTokenBiasFits(badWordsIds, past, bias, |badWordsIds|)
    {
      bias := seq(vocabSize, _ => NEUTRAL);
      var i := 0;
      while i < |badWordsIds|
        invariant 0 <= i <= |badWordsIds| && |bias| == vocabSize
        invariant forall k :: 0 <= k < i ==> !RaisesAt(badWordsIds[k], past, vocabSize)
        invariant LastTokenBiasFits(badWordsIds, past, bias, i)
      {
        var word, next := badWordsIds[i], i + 1;
        if |word| == 1 || |word| > |past| + 1 {
          BiasSkips(badWordsIds, past, bias, i, next);
        } else {
          ok, bias := AddWord(word, past, bias, i, next);
          if !ok { return; }
        }
        i := next;
      }
      assert i == |badWordsIds|;
      ok := true;
    }

    /** The first call checks the words against the vocabulary and caches the bias of the single tokens; a
        later call with another vocabulary size keeps it, and the sum broadcasts or fails. */
    method Call(past: seq<int>, logits: seq<Logit>) returns (r: Result<seq<Logit>, Error>)
      requires Valid()
      modifies this
      ensures Valid()
      ensures old(wordBias).Some? ==> wordBias == old(wordBias)
      ensures old(wordBias).None? && !InVocabulary(badWordsIds, |logits|) ==>
                r == Failure(ValueError(Invalid(badWordsIds, |logits|))) && wordBias.None?
      ensures old(wordBias).None? && InVocabulary(badWordsIds, |logits|) ==>
                wordBias.Some? && |wordBias.value| == |logits|
      ensures wordBias.Some? && Raises(badWordsIds, past, |logits|) ==> r == Failure(IndexError)
      ensures wordBias.Some? && !Raises(badWordsIds, past, |logits|) ==>
                (r == Failure(RuntimeError) <==>
                 |logits| != |wordBias.value| && |logits| != 1 && |wordBias.value| != 1)
      ensures wordBias.Some? && !Raises(badWordsIds, past, |logits|) && Broadcasts(|logits|, |wordBias.value|) ==>
                && r == Success(MaskedFor(badWordsIds, past, logits, |wordBias.value|))
                && AddedUp(badWordsIds, past, logits, |wordBias.value|, r.value)
    {
      InvalidIsEmpty(badWordsIds, |logits|);
      if wordBias.None? {
        var invalid := InitWordBias(|logits|);
        if invalid != [] { return Failure(ValueError(invalid)); }
      }
      var ok, lastTokenBias := LastTokenBias(past, |logits|);
      if !ok { return Failure(IndexError); }
      var bias := wordBias.value;
      if !Broadcasts(|logits|, |bias|) { return Failure(RuntimeError); }
      var result := BroadcastSum(BroadcastSum(logits, bias), lastTokenBias);
      SumIsMask(badWordsIds, past, logits, bias, lastTokenBias);
      MaskAddsUp(badWordsIds, past, logits, |bias|);
      r := Success(result);
    }
  }

  // ---------------------------------------------------------------------------------
  // Adding the biases.

  predicate NoNegativeIds(words: seq<Word>) {
    forall w, t :: w in words && t in w ==> t >= 0
  }

  /** Looking at the word's last token raises: there is none, or it is no index of the logits. */
  predicate RaisesAt(word: Word, past: seq<int>, vocabSize: nat) {
    word == [] || (2 <= |word| <= |past| + 1 && word[|word| - 1] >= vocabSize)
  }

  ghost predicate Raises(words: seq<Word>, past: seq<int>, vocabSize: nat) {
    exists i :: 0 <= i < |words| && RaisesAt(words[i], past, vocabSize)
  }

  /** Words within the vocabulary raise exactly when one of them is empty; others do when the past is long
      enough to look at a last token that is out of range. */
  lemma RaisesWhen(words: seq<Word>, past: seq<int>, vocabSize: nat)
    ensures [] in words ==> Raises(words, past, vocabSize)
    ensures InVocabulary(words, vocabSize) && [] !in words ==> !Raises(words, past, vocabSize)
    ensures forall w :: w in words && 2 <= |w| <= |past| + 1 && w[|w| - 1] >= vocabSize ==> Raises(words, past, vocabSize)
  {
    if [] in words {
      var i :| 0 <= i < |words| && words[i] == [];
      assert RaisesAt(words[i], past, vocabSize);
    }
    if InVocabulary(words, vocabSize) && [] !in words {
      forall i | 0 <= i < |words| ensures !RaisesAt(words[i], past, vocabSize) {
        assert words[i] in words && words[i][|words[i]| - 1] in words[i];
      }
    }
    forall w | w in words && 2 <= |w| <= |past| + 1 && w[|w| - 1] >= vocabSize ensures Raises(words, past, vocabSize) {
      var i :| 0 <= i < |words| && words[i] == w;
      assert RaisesAt(words[i], past, vocabSize);
    }
  }

  /** Tensors of these sizes can be added. */
  predicate Broadcasts(n: nat, m: nat) {
    n == m || n == 1 || m == 1
  }

  function Index(size: nat, t: nat): nat {
    if size == 1 then 0 else t
  }

  function BroadcastSize(n: nat, m: nat): nat
    requires Broadcasts(n, m)
  {
    if n == 1 then m else n
  }

  function BroadcastSum(a: seq<Logit>, b: seq<Logit>): (s: seq<Logit>)
    requires Broadcasts(|a|, |b|)
    ensures |s| == BroadcastSize(|a|, |b|)
  {
    seq(BroadcastSize(|a|, |b|), t requires 0 <= t < BroadcastSize(|a|, |b|) =>
      Add(a[Index(|a|, t)], b[Index(|b|, t)]))
  }

  /** What the processed logits are when the cached bias is for a vocabulary of size `m`. */
  ghost function MaskedFor(words: seq<Word>, past: seq<int>, logits: seq<Logit>, m: nat): seq<Logit>
    requires Broadcasts(|logits|, m)
  {
    seq(BroadcastSize(|logits|, m), t requires 0 <= t < BroadcastSize(|logits|, m) =>
      MaskedAt(words, past, logits, m, t))
  }

  ghost function MaskedAt(words: seq<Word>, past: seq<int>, logits: seq<Logit>, m: nat, t: nat): Logit
    requires Broadcasts(|logits|, m) && t < BroadcastSize(|logits|, m)
  {
    var k := Index(|logits|, t);
    if [Index(m, t)] in words || CompletesLong(words, |words|, past, k) then Add(logits[k], NegInf) else logits[k]
  }

  /** Token by token, where a tensor with one element stands for as many as needed. */
  ghost predicate AddedUp(words: seq<Word>, past: seq<int>, logits: seq<Logit>, m: nat, r: seq<Logit>) {
    && |r| == (if |logits| == 1 then m else |logits|)
    && forall t :: 0 <= t < |r| ==>
         var k, single := if |logits| == 1 then 0 else t, if m == 1 then 0 else t;
         k < |logits| &&
         r[t] == if [single] in words || CompletesLong(words, |words|, past, k) then Add(logits[k], NegInf) else logits[k]
  }

  lemma MaskAddsUp(words: seq<Word>, past: seq<int>, logits: seq<Logit>, m: nat)
    requires Broadcasts(|logits|, m)
    ensures AddedUp(words, past, logits, m, MaskedFor(words, past, logits, m))
  {
    forall t | 0 <= t < BroadcastSize(|logits|, m)
      ensures MaskedFor(words, past, logits, m)[t] == MaskedAt(words, past, logits, m, t)
    {
    }
  }

  /** As long as the vocabulary stays the same, that is the mask. */
  lemma SameVocabulary(words: seq<Word>, past: seq<int>, logits: seq<Logit>)
    ensures MaskedFor(words, past, logits, |logits|) == Masked(words, past, logits)
  {
    forall t | 0 <= t < |logits|
      ensures MaskedFor(words, past, logits, |logits|)[t] == Masked(words, past, logits)[t]
    {
      SingleOrLong(words, past, t);
    }
  }

  ghost predicate SingleBiasFits(words: seq<Word>, bias: seq<Logit>) {
    forall t :: 0 <= t < |bias| ==> bias[t] == Bias([t] in words)
  }

  /** One more word changes the bias only if it is a single token. */
  lemma SingleBiasGrows(words: seq<Word>, bias: seq<Logit>, i: nat, next: nat, word: Word)
    requires i + 1 == next <= |words| && words[i] == word && SingleBiasFits(words[..i], bias)
    ensures |word| != 1 ==> SingleBiasFits(words[..next], bias)
    ensures |word| == 1 && 0 <= word[0] < |bias| ==> SingleBiasFits(words[..next], bias[word[0] := NegInf])
  {
    assert words[..next] == words[..i] + [word];
    forall t ensures [t] in words[..next] <==> [t] in words[..i] || (|word| == 1 && word[0] == t) {
      if |word| == 1 { assert word == [word[0]]; }
    }
  }

  lemma SumAt(l: Logit, single: bool, long: bool)
    ensures Add(Add(l, Bias(single)), Bias(long))
         == if single || long then Add(l, NegInf) else l
  {
  }

  lemma SumIsMask(words: seq<Word>, past: seq<int>, logits: seq<Logit>, bias: seq<Logit>, lastBias: seq<Logit>)
    requires SingleBiasFits(words, bias) && LastTokenBiasFits(words, past, lastBias, |words|)
    requires |lastBias| == |logits| && Broadcasts(|logits|, |bias|)
    ensures Broadcasts(BroadcastSize(|logits|, |bias|), |lastBias|)
    ensures BroadcastSum(BroadcastSum(logits, bias), lastBias) == MaskedFor(words, past, logits, |bias|)
  {
    var n, m := |logits|, |bias|;
    var sum, all, mask := BroadcastSum(logits, bias), BroadcastSum(BroadcastSum(logits, bias), lastBias),
      MaskedFor(words, past, logits, m);
    assert |all| == |mask| == BroadcastSize(n, m);
    forall t | 0 <= t < |all| ensures all[t] == mask[t] {
      var k := Index(n, t);
      assert Index(|sum|, t) == t && all[t] == Add(Add(logits[k], bias[Index(m, t)]), lastBias[k]);
      SumAt(logits[k], [Index(m, t)] in words, CompletesLong(words, |words|, past, k));
    }
  }

  ghost predicate LastTokenBiasFits(words: seq<Word>, past: seq<int>, bias: seq<Logit>, n: nat)
    requires n <= |words|
  {
    forall t :: 0 <= t < |bias| ==> bias[t] == Bias(CompletesLong(words, n, past, t))
  }

  function Biased(bias: seq<Logit>, token: nat, isMatch: bool): (r: seq<Logit>)
    requires token < |bias|
    ensures |r| == |bias|
  {
    bias[token := Add(bias[token], Bias(isMatch))]
  }

  lemma CompletesLongStep(words: seq<Word>, i: nat, next: nat, past: seq<int>, t: int)
    requires i < next == i + 1 <= |words|
    ensures CompletesLong(words, next, past, t) <==>
            CompletesLong(words, i, past, t) || (|words[i]| >= 2 && Completes(words[i], past, t))
  {
  }

  lemma BiasSkips(words: seq<Word>, past: seq<int>, bias: seq<Logit>, i: nat, next: nat)
    requires i < next == i + 1 <= |words| && LastTokenBiasFits(words, past, bias, i)
    requires |words[i]| == 1 || |words[i]| > |past| + 1
    ensures LastTokenBiasFits(words, past, bias, next)
  {
    forall t | 0 <= t < |bias| ensures CompletesLong(words, next, past, t) == CompletesLong(words, i, past, t) {
      CompletesLongStep(words, i, next, past, t);
    }
  }

  lemma CompletesByMatch(word: Word, past: seq<int>, last: int, isMatch: bool, t: int)
    requires 2 <= |word| <= |past| + 1 && last == word[|word| - 1]
    requires isMatch == (word[..|word| - 1] == LastOf(past, |word| - 1))
    ensures Completes(word, past, t) <==> t == last && isMatch
  {
  }

  /** Looking at a word that the past is long enough for adds its last token, if its prefix matches. */
  lemma MatchDecides(words: seq<Word>, word: Word, past: seq<int>, i: nat, next: nat, last: int, isMatch: bool, t: int)
    requires i < next == i + 1 <= |words| && words[i] == word && 2 <= |word| <= |past| + 1
    requires last == word[|word| - 1]
    requires isMatch == (word[..|word| - 1] == LastOf(past, |word| - 1))
    ensures CompletesLong(words, next, past, t) <==> CompletesLong(words, i, past, t) || (t == last && isMatch)
  {
    CompletesLongStep(words, i, next, past, t);
    CompletesByMatch(word, past, last, isMatch, t);
  }

  lemma BiasAt(bias: seq<Logit>, last: nat, isMatch: bool, t: nat, was: bool, now: bool)
    requires last < |bias| && t < |bias| && bias[t] == Bias(was) && now == (was || (t == last && isMatch))
    ensures Biased(bias, last, isMatch)[t] == Bias(now)
  {
  }
}
