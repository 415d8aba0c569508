/**
 * The caption encoding of the training data loader: a token list becomes
 * the ids of <start>, the tokens (unknown ones as <unk>), <end>, and
 * <pad> up to the maximum caption length; and a flat dataset index
 * selects an image and one of its captions.
 */
module CaptionData {
  import opened Wrappers

  const MaxLen := 40
  const CaptionsPerImage := 5

  type WordMap = map<string, int>

  /** The ids of the tokens: a known token's own id, otherwise the id of <unk>. */
  function TokenIds(wm: WordMap, c: seq<string>): (r: seq<int>)
    requires c == [] || "<unk>" in wm
    ensures |r| == |c|
    ensures forall i :: 0 <= i < |c| ==> r[i] == (if c[i] in wm then wm[c[i]] else wm["<unk>"])
  {
    seq(|c|, i requires 0 <= i < |c| => if c[i] in wm then wm[c[i]] else wm["<unk>"])
  }

  /** [x] * n, which is empty for a count that is not positive. */
  function Repeat(x: int, n: int): (r: seq<int>)
    ensures |r| == (if n < 0 then 0 else n)
    ensures forall i :: 0 <= i < |r| ==> r[i] == x
  {
    if n <= 0 then [] else seq(n, _ => x)
  }

  /**
   * encode_caption(word_map, c).  Evaluation is left to right, so the
   * KeyError names the first of <start>, <unk> (looked up once per token,
   * hence only when c is non-empty), <end>, <pad> that is missing.
   */
  function EncodeCaption(wm: WordMap, c: seq<string>): (r: Result<seq<int>, string>)
    ensures r.Success? <==> "<start>" in wm && (c == [] || "<unk>" in wm) && "<end>" in wm && "<pad>" in wm
    ensures r.Failure? ==> r.error in wm.Keys + {"<start>", "<unk>", "<end>", "<pad>"} - wm.Keys
  {
    if "<start>" !in wm then Failure("<start>")
    else if c != [] && "<unk>" !in wm then Failure("<unk>")
    else if "<end>" !in wm then Failure("<end>")
    else if "<pad>" !in wm then Failure("<pad>")
    else Success([wm["<start>"]] + TokenIds(wm, c) + [wm["<end>"]] + Repeat(wm["<pad>"], MaxLen - |c|))
  }

  /** The layout of an encoded caption, element by element, and its length. */
  lemma EncodedLayout(wm: WordMap, c: seq<string>)
    requires EncodeCaption(wm, c).Success?
    ensures var e := EncodeCaption(wm, c).value;
            |e| == (if |c| <= MaxLen then MaxLen + 2 else |c| + 2) &&
            e[0] == wm["<start>"] &&
            (forall i :: 0 <= i < |c| ==> e[i + 1] == (if c[i] in wm then wm[c[i]] else wm["<unk>"])) &&
            e[|c| + 1] == wm["<end>"] &&
            (forall i :: |c| + 2 <= i < |e| ==> e[i] == wm["<pad>"])
  {
    var e := EncodeCaption(wm, c).value;
    var ids := TokenIds(wm, c);
    var pad := Repeat(wm["<pad>"], MaxLen - |c|);
    assert e == [wm["<start>"]] + ids + [wm["<end>"]] + pad;
    assert forall i :: 0 <= i < |c| ==> e[i + 1] == ids[i];
    assert forall i :: |c| + 2 <= i < |e| ==> e[i] == pad[i - |c| - 2];
  }

  /** How many elements precede the first occurrence of pad (all of them when there is none). */
  function LeadingNonPad(s: seq<int>, pad: int): (n: nat)
    ensures n <= |s|
    ensures forall i :: 0 <= i < n ==> s[i] != pad
    ensures n < |s| ==> s[n] == pad
  {
    if s == [] || s[0] == pad then 0 else 1 + LeadingNonPad(s[1..], pad)
  }

  /** LeadingNonPad is the position of the first pad. */
  lemma {:induction false} LeadingNonPadAt(s: seq<int>, pad: int, n: nat)
    requires n <= |s| && (forall i :: 0 <= i < n ==> s[i] != pad) && (n < |s| ==> s[n] == pad)
    ensures LeadingNonPad(s, pad) == n
  {
    if n > 0 {
      assert s[0] != pad;
      assert forall i :: 0 <= i < n - 1 ==> s[1..][i] == s[i + 1];
      LeadingNonPadAt(s[1..], pad, n - 1);
    }
  }

  /**
   * When <pad>'s id differs from every other id the encoding uses, the
   * caption length the loader reports, |c| + 2, is where the padding starts.
   */
  lemma CaplenIsUnpaddedLength(wm: WordMap, c: seq<string>)
    requires EncodeCaption(wm, c).Success?
    requires forall w :: w in wm && w != "<pad>" ==> wm[w] != wm["<pad>"]
    requires "<pad>" !in c
    ensures LeadingNonPad(EncodeCaption(wm, c).value, wm["<pad>"]) == |c| + 2
  {
    var e := EncodeCaption(wm, c).value;
    EncodedLayout(wm, c);
    var pad := wm["<pad>"];
    assert forall i :: 0 <= i < |c| + 2 ==> e[i] != pad by {
      forall i | 0 <= i < |c| + 2 ensures e[i] != pad {
        if i == 0 {
        } else if i <= |c| {
          assert c[i - 1] in c;
          assert e[i] == (if c[i - 1] in wm then wm[c[i - 1]] else wm["<unk>"]);
        }
      }
    }
    LeadingNonPadAt(e, pad, |c| + 2);
  }

  /** __getitem__(i): the image i // 5 and its caption i % 5. */
  function SampleIndex(i: nat): nat { i / CaptionsPerImage }

  function CaptionIndex(i: nat): nat { i % CaptionsPerImage }

  /** The index mapping is a bijection between [0, 5N) and [0, N) x [0, 5). */
  lemma IndexMapping(n: nat, i: nat)
    requires i < CaptionsPerImage * n
    ensures SampleIndex(i) < n && CaptionIndex(i) < CaptionsPerImage
    ensures i == CaptionsPerImage * SampleIndex(i) + CaptionIndex(i)
  {
  }

  lemma IndexMappingOnto(n: nat, s: nat, k: nat)
    requires s < n && k < CaptionsPerImage
    ensures CaptionsPerImage * s + k < CaptionsPerImage * n
    ensures SampleIndex(CaptionsPerImage * s + k) == s && CaptionIndex(CaptionsPerImage * s + k) == k
  {
  }

  lemma IndexMappingInjective(i: nat, j: nat)
    requires SampleIndex(i) == SampleIndex(j) && CaptionIndex(i) == CaptionIndex(j)
    ensures i == j
  {
  }
}
