/**
 * The vocabulary built before training: a Counter of the segmented
 * caption tokens, the words seen more than min_word_freq times in the
 * order they were first seen, and the word map that numbers them from 1
 * and appends <unk>, <start>, <end> and <pad>.
 */
module Vocabulary {
  import opened CaptionData

  const MinWordFreq := 3

  /** No element occurs twice. */
  predicate Distinct(ws: seq<string>)
  {
    forall i, j :: 0 <= i < j < |ws| ==> ws[i] != ws[j]
  }

  /** Position of the first occurrence of w. */
  function FirstIndex(ts: seq<string>, w: string): (r: nat)
    requires w in ts
    ensures r < |ts| && ts[r] == w && w !in ts[..r]
  {
    if ts[0] == w then 0 else 1 + FirstIndex(ts[1..], w)
  }

  /** Any position that holds w with no w before it is the first index. */
  lemma {:induction false} FirstIndexAt(ts: seq<string>, w: string, p: nat)
    requires p < |ts| && ts[p] == w && w !in ts[..p]
    ensures FirstIndex(ts, w) == p
  {
    if p > 0 {
      assert ts[0] in ts[..p];
      assert ts[1..][p - 1] == w;
      assert ts[1..][..p - 1] == ts[..p][1..];
      FirstIndexAt(ts[1..], w, p - 1);
    }
  }

  /**
   * A collections.Counter: the count of every key and the order in which
   * the keys were first inserted (the order keys() yields them).
   */
  datatype Counter = Counter(counts: map<string, nat>, order: seq<string>)

  const EmptyCounter := Counter(map[], [])

  /** Counting one more occurrence of w. */
  function Bump(c: Counter, w: string): Counter
  {
    if w in c.counts then Counter(c.counts[w := c.counts[w] + 1], c.order)
    else Counter(c.counts[w := 1], c.order + [w])
  }

  /** Counter.update(tokens): one Bump per token, left to right. */
  function Update(c: Counter, ts: seq<string>): Counter
  {
    if ts == [] then c else Bump(Update(c, ts[..|ts| - 1]), ts[|ts| - 1])
  }

  /** Updating with a concatenation is updating with each part in turn. */
  lemma {:induction false} UpdateAppend(c: Counter, a: seq<string>, b: seq<string>)
    ensures Update(c, a + b) == Update(Update(c, a), b)
  {
    if b == [] {
      assert a + b == a;
    } else {
      assert (a + b)[..|a + b| - 1] == a + b[..|b| - 1];
      UpdateAppend(c, a, b[..|b| - 1]);
    }
  }

  /** The Counter of a token stream. */
  function Tally(ts: seq<string>): Counter
  {
    Update(EmptyCounter, ts)
  }

  /** Every token of a caption list, in order. */
  function Join(captions: seq<seq<string>>): seq<string>
  {
    if captions == [] then [] else Join(captions[..|captions| - 1]) + captions[|captions| - 1]
  }

  /** Every token of every caption of every sample, in order. */
  function Flatten(samples: seq<seq<seq<string>>>): seq<string>
  {
    if samples == [] then [] else Flatten(samples[..|samples| - 1]) + Join(samples[|samples| - 1])
  }

  lemma JoinSnoc(captions: seq<seq<string>>, j: nat)
    requires j < |captions|
    ensures Join(captions[..j + 1]) == Join(captions[..j]) + captions[j]
  {
    assert captions[..j + 1][..j] == captions[..j];
  }

  lemma FlattenSnoc(samples: seq<seq<seq<string>>>, i: nat)
    requires i < |samples|
    ensures Flatten(samples[..i + 1]) == Flatten(samples[..i]) + Join(samples[i])
  {
    assert samples[..i + 1][..i] == samples[..i];
  }

  /** One word_freq.update(seg_list) step of the loop. */
  lemma CountStep(seen: seq<string>, captions: seq<seq<string>>, j: nat)
    requires j < |captions|
    ensures Update(Tally(seen + Join(captions[..j])), captions[j]) == Tally(seen + Join(captions[..j + 1]))
  {
    UpdateAppend(EmptyCounter, seen + Join(captions[..j]), captions[j]);
    JoinSnoc(captions, j);
    assert seen + Join(captions[..j + 1]) == seen + Join(captions[..j]) + captions[j];
  }

  /**
   * The frequency loop: word_freq.update(seg_list) for each caption of each
   * sample, where seg_list is the caption already segmented into tokens.
   */
  method CountWords(samples: seq<seq<seq<string>>>) returns (wordFreq: Counter)
    ensures wordFreq == Tally(Flatten(samples))
  {
    wordFreq := EmptyCounter;
    var i := 0;
    while i < |samples|
      invariant 0 <= i <= |samples|
      invariant wordFreq == Tally(Flatten(samples[..i]))
    {
      var caption := samples[i];
      var j := 0;
      assert caption[..0] == [];
      assert Flatten(samples[..i]) + Join(caption[..0]) == Flatten(samples[..i]);
      while j < |caption|
        invariant 0 <= j <= |caption|
        invariant wordFreq == Tally(Flatten(samples[..i]) + Join(caption[..j]))
      {
        CountStep(Flatten(samples[..i]), caption, j);
        wordFreq := Update(wordFreq, caption[j]);
        j := j + 1;
      }
      assert caption[..j] == caption;
      FlattenSnoc(samples, i);
      i := i + 1;
    }
    assert samples[..i] == samples;
  }

  /** What the Counter holds: exactly the tokens seen, each with its number of occurrences. */
  lemma {:induction false} TallyCounts(ts: seq<string>)
    ensures forall w :: w in Tally(ts).counts <==> w in ts
    ensures forall w :: w in Tally(ts).counts ==> Tally(ts).counts[w] == multiset(ts)[w]
  {
    if ts != [] {
      var init := ts[..|ts| - 1];
      var w := ts[|ts| - 1];
      TallyCounts(init);
      assert ts == init + [w];
      assert forall x :: x in ts <==> x in init || x == w;
    }
  }

  /** The Counter's keys are the tokens seen, without repetition. */
  lemma {:induction false} TallyKeysDistinct(ts: seq<string>)
    ensures forall w :: w in Tally(ts).order <==> w in ts
    ensures Distinct(Tally(ts).order)
  {
    if ts != [] {
      var init := ts[..|ts| - 1];
      var w := ts[|ts| - 1];
      TallyCounts(init);
      TallyKeysDistinct(init);
      assert ts == init + [w];
      assert forall x :: x in ts <==> x in init || x == w;
    }
  }

  /** x first occurs in ts before y first occurs. */
  predicate SeenBefore(ts: seq<string>, x: string, y: string)
  {
    x in ts && y in ts && FirstIndex(ts, x) < FirstIndex(ts, y)
  }

  /** order lists tokens of ts by their first occurrence. */
  predicate InFirstSeenOrder(ts: seq<string>, order: seq<string>)
  {
    forall i, j :: 0 <= i < j < |order| ==> SeenBefore(ts, order[i], order[j])
  }

  /** Appending a token does not move the first occurrence of a token already seen. */
  lemma FirstIndexExtend(ts: seq<string>, w: string, x: string)
    requires x in ts
    ensures FirstIndex(ts + [w], x) == FirstIndex(ts, x)
  {
    var p := FirstIndex(ts, x);
    assert (ts + [w])[..p] == ts[..p];
    FirstIndexAt(ts + [w], x, p);
  }

  lemma SeenBeforeExtend(ts: seq<string>, w: string, x: string, y: string)
    requires SeenBefore(ts, x, y)
    ensures SeenBefore(ts + [w], x, y)
  {
    FirstIndexExtend(ts, w, x);
    FirstIndexExtend(ts, w, y);
  }

  /** A token seen for the first time comes after every token seen before. */
  lemma SeenBeforeNew(ts: seq<string>, w: string, x: string)
    requires x in ts && w !in ts
    ensures SeenBefore(ts + [w], x, w)
  {
    FirstIndexExtend(ts, w, x);
    assert (ts + [w])[..|ts|] == ts;
    FirstIndexAt(ts + [w], w, |ts|);
  }

  /** The keys come in the order of their first occurrence. */
  lemma {:induction false} TallyOrder(ts: seq<string>)
    ensures InFirstSeenOrder(ts, Tally(ts).order)
  {
    if ts != [] {
      var init := ts[..|ts| - 1];
      var w := ts[|ts| - 1];
      TallyCounts(init);
      TallyKeysDistinct(init);
      TallyOrder(init);
      assert ts == init + [w];
      var old_ := Tally(init).order;
      if w in init {
        forall i, j | 0 <= i < j < |old_| ensures SeenBefore(ts, old_[i], old_[j]) {
          SeenBeforeExtend(init, w, old_[i], old_[j]);
        }
      } else {
        var order := old_ + [w];
        forall i, j | 0 <= i < j < |order| ensures SeenBefore(ts, order[i], order[j]) {
          if j < |old_| {
            SeenBeforeExtend(init, w, old_[i], old_[j]);
          } else {
            SeenBeforeNew(init, w, old_[i]);
          }
        }
      }
    }
  }

  /** Every key in the Counter's order has a count. */
  lemma TallyKeys(ts: seq<string>)
    ensures forall w :: w in Tally(ts).order ==> w in Tally(ts).counts
  {
    TallyCounts(ts);
    TallyKeysDistinct(ts);
  }

  /** words: the Counter's keys, in order, whose count exceeds min_word_freq. */
  function Kept(c: Counter, order: seq<string>): (r: seq<string>)
    requires forall w :: w in order ==> w in c.counts
    ensures forall w :: w in r <==> w in order && c.counts[w] > MinWordFreq
    ensures Distinct(order) ==> Distinct(r)
  {
    if order == [] then []
    else
      var init := order[..|order| - 1];
      var w := order[|order| - 1];
      assert order == init + [w];
      var rest := Kept(c, init);
      if c.counts[w] > MinWordFreq then rest + [w] else rest
  }

  /** The words kept from a token stream: those occurring more than min_word_freq times. */
  function Words(ts: seq<string>): (r: seq<string>)
  {
    TallyKeys(ts);
    Kept(Tally(ts), Tally(ts).order)
  }

  lemma WordsIff(ts: seq<string>)
    ensures Distinct(Words(ts))
    ensures forall w :: w in Words(ts) <==> multiset(ts)[w] > MinWordFreq
  {
    TallyCounts(ts);
    TallyKeysDistinct(ts);
    forall w | multiset(ts)[w] > MinWordFreq ensures w in ts {
      assert w in multiset(ts);
    }
  }

  /** The kept words keep the first-seen order of the stream. */
  lemma WordsInFirstSeenOrder(ts: seq<string>)
    ensures InFirstSeenOrder(ts, Words(ts))
  {
    TallyKeys(ts);
    TallyOrder(ts);
    KeptSubsequence(Tally(ts), Tally(ts).order, ts);
  }

  lemma {:induction false} KeptSubsequence(c: Counter, order: seq<string>, ts: seq<string>)
    requires forall w :: w in order ==> w in c.counts
    requires InFirstSeenOrder(ts, order)
    ensures InFirstSeenOrder(ts, Kept(c, order))
  {
    if order != [] {
      var init := order[..|order| - 1];
      var w := order[|order| - 1];
      assert order == init + [w];
      assert InFirstSeenOrder(ts, init) by {
        assert forall i :: 0 <= i < |init| ==> init[i] == order[i];
      }
      KeptSubsequence(c, init, ts);
      var rest := Kept(c, init);
      if c.counts[w] > MinWordFreq {
        var r := rest + [w];
        forall i, j | 0 <= i < j < |r| ensures SeenBefore(ts, r[i], r[j]) {
          if j == |rest| {
            assert r[i] in init;
            var k :| 0 <= k < |init| && init[k] == r[i];
            assert order[k] == r[i];
          }
        }
      }
    }
  }

  /** {k: index + 1 for index, k in enumerate(words)}. */
  function Numbered(ws: seq<string>): (m: map<string, int>)
    ensures m.Keys == set w | w in ws
  {
    if ws == [] then map[]
    else
      var init := ws[..|ws| - 1];
      assert ws == init + [ws[|ws| - 1]];
      Numbered(init)[ws[|ws| - 1] := |ws|]
  }

  /** For distinct words each word is numbered by its 1-based position, and there are as many keys as words. */
  lemma {:induction false} NumberedIds(ws: seq<string>)
    requires Distinct(ws)
    ensures forall i :: 0 <= i < |ws| ==> Numbered(ws)[ws[i]] == i + 1
    ensures |Numbered(ws)| == |ws|
  {
    if ws != [] {
      var init := ws[..|ws| - 1];
      assert ws == init + [ws[|ws| - 1]];
      NumberedIds(init);
      assert ws[|ws| - 1] !in init;
    }
  }

  /** The four special tokens, each numbered from the map's size at the time; <pad> is 0. */
  function WithSpecials(m0: map<string, int>): map<string, int>
  {
    var m1 := m0["<unk>" := |m0| + 1];
    var m2 := m1["<start>" := |m1| + 1];
    var m3 := m2["<end>" := |m2| + 1];
    m3["<pad>" := 0]
  }

  predicate IsSpecial(w: string)
  {
    w == "<unk>" || w == "<start>" || w == "<end>" || w == "<pad>"
  }

  /** The word map of a list of kept words: their numbering, then the four special tokens. */
  method NumberWords(words: seq<string>) returns (wordMap: map<string, int>)
    ensures wordMap == WithSpecials(Numbered(words))
  {
    wordMap := Numbered(words);
    wordMap := wordMap["<unk>" := |wordMap| + 1];
    wordMap := wordMap["<start>" := |wordMap| + 1];
    wordMap := wordMap["<end>" := |wordMap| + 1];
    wordMap := wordMap["<pad>" := 0];
  }

  /** The whole of create_input_files' numbering, from the segmented captions to the saved map. */
  method CreateWordMap(samples: seq<seq<seq<string>>>) returns (wordMap: map<string, int>, words: seq<string>)
    ensures words == Words(Flatten(samples))
    ensures wordMap == WithSpecials(Numbered(words))
  {
    var wordFreq := CountWords(samples);
    TallyKeys(Flatten(samples));
    words := Kept(wordFreq, wordFreq.order);
    wordMap := NumberWords(words);
  }

  /** The four assignments add four fresh keys to a map holding none of them. */
  lemma WithSpecialsFresh(m0: map<string, int>)
    requires "<unk>" !in m0 && "<start>" !in m0 && "<end>" !in m0 && "<pad>" !in m0
    ensures var wm := WithSpecials(m0);
            wm["<unk>"] == |m0| + 1 && wm["<start>"] == |m0| + 2 &&
            wm["<end>"] == |m0| + 3 && wm["<pad>"] == 0 && |wm| == |m0| + 4
    ensures WithSpecials(m0).Keys == m0.Keys + {"<unk>", "<start>", "<end>", "<pad>"}
    ensures forall w :: w in m0 ==> WithSpecials(m0)[w] == m0[w]
  {
  }

  lemma NumberedNoSpecial(words: seq<string>)
    requires forall w :: w in words ==> !IsSpecial(w)
    ensures "<unk>" !in Numbered(words) && "<start>" !in Numbered(words)
    ensures "<end>" !in Numbered(words) && "<pad>" !in Numbered(words)
  {
  }

  /**
   * When no kept word is a special token, the word map numbers the words
   * 1..n in order, gives <unk>, <start>, <end> the ids n+1, n+2, n+3 and
   * <pad> the id 0.
   */
  lemma WordMapIds(words: seq<string>)
    requires Distinct(words)
    requires forall w :: w in words ==> !IsSpecial(w)
    ensures var wm := WithSpecials(Numbered(words));
            (forall i :: 0 <= i < |words| ==> wm[words[i]] == i + 1) &&
            wm["<unk>"] == |words| + 1 && wm["<start>"] == |words| + 2 &&
            wm["<end>"] == |words| + 3 && wm["<pad>"] == 0
    ensures WithSpecials(Numbered(words)).Keys == (set w | w in words) + {"<unk>", "<start>", "<end>", "<pad>"}
    ensures |WithSpecials(Numbered(words))| == |words| + 4
  {
    NumberedIds(words);
    NumberedNoSpecial(words);
    WithSpecialsFresh(Numbered(words));
  }

  /** Distinct tokens get distinct ids, and the ids are exactly 0..n+3. */
  lemma WordMapBijective(words: seq<string>)
    requires Distinct(words)
    requires forall w :: w in words ==> !IsSpecial(w)
    ensures var wm := WithSpecials(Numbered(words));
            forall x, y :: x in wm && y in wm && x != y ==> wm[x] != wm[y]
    ensures forall v :: v in WithSpecials(Numbered(words)).Values <==> 0 <= v <= |words| + 3
  {
    WordMapIds(words);
    IdsBijective(WithSpecials(Numbered(words)), words);
  }

  /** A map laid out as WordMapIds describes. */
  predicate LaidOut(wm: map<string, int>, words: seq<string>)
  {
    (forall w :: w in words ==> !IsSpecial(w)) &&
    (forall i :: 0 <= i < |words| ==> words[i] in wm && wm[words[i]] == i + 1) &&
    "<unk>" in wm && "<start>" in wm && "<end>" in wm && "<pad>" in wm &&
    wm["<unk>"] == |words| + 1 && wm["<start>"] == |words| + 2 &&
    wm["<end>"] == |words| + 3 && wm["<pad>"] == 0 &&
    wm.Keys == (set w | w in words) + {"<unk>", "<start>", "<end>", "<pad>"}
  }

  /** The id of a key: its position for a word, its fixed value for a special token. */
  lemma IdOf(wm: map<string, int>, words: seq<string>, x: string)
    requires LaidOut(wm, words) && x in wm
    ensures 0 <= wm[x] <= |words| + 3
    ensures x in words ==> wm[x] == FirstIndex(words, x) + 1
    ensures x == "<unk>" || x == "<start>" || x == "<end>" || x == "<pad>" || x in words
  {
    if x in words {
      var i := FirstIndex(words, x);
      assert wm[words[i]] == i + 1;
    }
  }

  /** The bijection argument, for any map laid out as WordMapIds describes. */
  lemma IdsBijective(wm: map<string, int>, words: seq<string>)
    requires LaidOut(wm, words)
    ensures forall x, y :: x in wm && y in wm && x != y ==> wm[x] != wm[y]
    ensures forall v :: v in wm.Values <==> 0 <= v <= |words| + 3
  {
    var n := |words|;
    forall x, y | x in wm && y in wm && x != y ensures wm[x] != wm[y] {
      IdOf(wm, words, x);
      IdOf(wm, words, y);
    }
    forall v | v in wm.Values ensures 0 <= v <= n + 3 {
      var x :| x in wm && wm[x] == v;
      IdOf(wm, words, x);
    }
    forall v | 0 <= v <= n + 3 ensures v in wm.Values {
      if v == 0 { assert wm["<pad>"] == v; }
      else if v <= n { assert wm[words[v - 1]] == v; }
      else if v == n + 1 { assert wm["<unk>"] == v; }
      else if v == n + 2 { assert wm["<start>"] == v; }
      else { assert wm["<end>"] == v; }
    }
  }

  /**
   * A word map built this way encodes every caption: the encoding never
   * raises KeyError, every id is below the vocabulary size len(word_map),
   * and, for a caption not containing the literal token <pad>, the reported
   * caption length |c| + 2 is where the padding starts.
   */
  lemma WordMapEncodes(words: seq<string>, c: seq<string>)
    requires Distinct(words)
    requires forall w :: w in words ==> !IsSpecial(w)
    ensures EncodeCaption(WithSpecials(Numbered(words)), c).Success?
    ensures var wm := WithSpecials(Numbered(words));
            var e := EncodeCaption(wm, c).value;
            forall k :: 0 <= k < |e| ==> 0 <= e[k] < |wm|
    ensures "<pad>" !in c ==>
              var wm := WithSpecials(Numbered(words));
              LeadingNonPad(EncodeCaption(wm, c).value, wm["<pad>"]) == |c| + 2
  {
    WordMapIds(words);
    WordMapBijective(words);
    var wm := WithSpecials(Numbered(words));
    var e := EncodeCaption(wm, c).value;
    EncodedLayout(wm, c);
    forall k | 0 <= k < |e| ensures 0 <= e[k] < |wm| {
      if 1 <= k <= |c| {
        assert e[k] == (if c[k - 1] in wm then wm[c[k - 1]] else wm["<unk>"]);
        if c[k - 1] in wm { assert wm[c[k - 1]] in wm.Values; }
      }
    }
    if "<pad>" !in c {
      CaplenIsUnpaddedLength(wm, c);
    }
  }

  /** The map create_input_files saves, under the same condition on the data. */
  lemma CreatedWordMap(samples: seq<seq<seq<string>>>)
    requires forall w :: w in Words(Flatten(samples)) ==> !IsSpecial(w)
    ensures var wm := WithSpecials(Numbered(Words(Flatten(samples))));
            |wm| == |Words(Flatten(samples))| + 4 &&
            (forall w :: w in wm && !IsSpecial(w) <==> multiset(Flatten(samples))[w] > MinWordFreq)
  {
    var ws := Words(Flatten(samples));
    WordsIff(Flatten(samples));
    WordMapIds(ws);
    KeysOfWordMap(WithSpecials(Numbered(ws)), ws, Flatten(samples));
  }

  lemma KeysOfWordMap(wm: map<string, int>, ws: seq<string>, ts: seq<string>)
    requires forall w :: w in ws <==> multiset(ts)[w] > MinWordFreq
    requires forall w :: w in ws ==> !IsSpecial(w)
    requires wm.Keys == (set w | w in ws) + {"<unk>", "<start>", "<end>", "<pad>"}
    ensures forall w :: w in wm && !IsSpecial(w) <==> multiset(ts)[w] > MinWordFreq
  {
  }
}
