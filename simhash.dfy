/** The simhash fingerprint of a captured page (package `simhash`): the
    visible text of the HTML document is cut into lower-cased letter tokens and
    counted; each token's BLAKE2b-512 digest votes, with the token's count as
    weight, on every bit of a fingerprint of at most 64 bits; the fingerprint
    is stored as 8 little-endian bytes in standard base64.

    The BLAKE2b-512 digest and the HTML parser are library code and are taken
    as parameters: `blake2b` maps a token to its 64-byte digest and `parse`
    maps the page's bytes to a document tree, or to `None` when parsing fails. */
module SimHash {
  import opened Wrappers
  import opened Bytes
  import opened Sums
  import opened Text
  import opened Html
  import opened Arith
  import Base64

  // ---------------------------------------------------------------------
  // Visible text (the `extractText` walk)
  // ---------------------------------------------------------------------

  /** A `script` or `style` element: its subtree is not walked. */
  predicate IsSkipped(n: Node)
  {
    n.typ == ElementNode && (n.data == "script" || n.data == "style")
  }

  /** The text the walk appends for `n`: a text node's data followed by a
      space, then the text of its children in order, unless `n` is skipped. */
  function VisibleText(n: Node): string
    decreases n, 1
  {
    (if n.typ == TextNode then n.data + " " else "")
    + (if IsSkipped(n) then "" else ChildrenText(n, |n.children|))
  }

  /** The text of the first `k` children of `n`. */
  function ChildrenText(n: Node, k: nat): string
    requires k <= |n.children|
    decreases n, 0, k
  {
    if k == 0 then "" else ChildrenText(n, k - 1) + VisibleText(n.children[k - 1])
  }

  /** `extractText`: appends the visible text of `n` to the builder. */
  method ExtractText(n: Node, text: Builder)
    modifies text
    ensures text.contents == old(text.contents) + VisibleText(n)
    decreases n, 1
  {
    if n.typ == TextNode {
      text.WriteString(n.data + " ");
    }
    if IsSkipped(n) {
      return;
    }
    ExtractChildren(n, text);
  }

  /** The loop of `extractText` over the children of `n`, in order. */
  method ExtractChildren(n: Node, text: Builder)
    modifies text
    ensures text.contents == old(text.contents) + ChildrenText(n, |n.children|)
    decreases n, 0
  {
    var i := 0;
    while i < |n.children|
      invariant 0 <= i <= |n.children|
      invariant text.contents == old(text.contents) + ChildrenText(n, i)
    {
      ExtractText(n.children[i], text);
      i := i + 1;
    }
  }

  /** Two trees that agree everywhere except inside `script` and `style`
      elements. */
  predicate SameOutsideSkipped(a: Node, b: Node)
    decreases a
  {
    a.typ == b.typ && a.data == b.data
    && (IsSkipped(a)
        || (|a.children| == |b.children|
            && forall k :: 0 <= k < |a.children| ==> SameOutsideSkipped(a.children[k], b.children[k])))
  }

  /** Nothing inside a `script` or `style` element reaches the text: trees
      that differ only there have the same visible text. */
  lemma {:induction false} SkippedTextIgnored(a: Node, b: Node)
    requires SameOutsideSkipped(a, b)
    ensures VisibleText(a) == VisibleText(b)
    decreases a, 1
  {
    if !IsSkipped(a) {
      ChildrenTextIgnoresSkipped(a, b, |a.children|);
    }
  }

  lemma {:induction false} ChildrenTextIgnoresSkipped(a: Node, b: Node, k: nat)
    requires SameOutsideSkipped(a, b) && !IsSkipped(a)
    requires k <= |a.children|
    ensures k <= |b.children| && ChildrenText(a, k) == ChildrenText(b, k)
    decreases a, 0, k
  {
    if k > 0 {
      ChildrenTextIgnoresSkipped(a, b, k - 1);
      SkippedTextIgnored(a.children[k - 1], b.children[k - 1]);
    }
  }

  // ---------------------------------------------------------------------
  // Features (`ExtractHTMLFeatures`)
  // ---------------------------------------------------------------------

  /** The rune mapping of `ExtractHTMLFeatures`: punctuation and every
      non-letter become a space. */
  function KeepLetter(u: Unicode): char -> char
  {
    r => if u.isPunct(r) || !u.isLetter(r) then ' ' else r
  }

  /** A word as it is counted: mapped rune by rune, then trimmed. */
  function Normalize(u: Unicode, word: string): string
  {
    TrimSpace(Map(KeepLetter(u), word))
  }

  /** A feature key: non-empty, no space at either end, and made of letters
      that are not punctuation and of spaces only. */
  predicate IsToken(u: Unicode, w: string)
  {
    w != [] && !IsSpace(w[0]) && !IsSpace(w[|w| - 1])
    && forall i :: 0 <= i < |w| ==> w[i] == ' ' || (u.isLetter(w[i]) && !u.isPunct(w[i]))
  }

  /** The count of `k` in `m`, 0 when absent (Go's zero value). */
  function Count(m: map<string, int>): string -> int
  {
    k => if k in m then m[k] else 0
  }

  /** The feature map `m` after counting one more normalised word; an empty
      word is not counted. */
  function AddWord(m: map<string, int>, w: string): map<string, int>
  {
    if w == "" then m else m[w := Count(m)(w) + 1]
  }

  /** The feature map after counting `words` in order. */
  function Tally(u: Unicode, words: seq<string>): map<string, int>
  {
    if words == [] then map[] else AddWord(Tally(u, words[..|words| - 1]), Normalize(u, words[|words| - 1]))
  }

  /** The words of a document: its visible text lower-cased and split at spaces. */
  function Words(u: Unicode, doc: Node): seq<string>
  {
    Fields(ToLower(u, VisibleText(doc)))
  }

  /** The feature map of a page: empty when it does not parse. */
  function Features(parse: seq<byte> -> Option<Node>, u: Unicode, htmlContent: seq<byte>): map<string, int>
  {
    match parse(htmlContent)
    case None => map[]
    case Some(doc) => Tally(u, Words(u, doc))
  }

  /** `ExtractHTMLFeatures`. */
  method ExtractHTMLFeatures(htmlContent: seq<byte>, parse: seq<byte> -> Option<Node>, u: Unicode)
    returns (features: map<string, int>)
    ensures features == Features(parse, u, htmlContent)
  {
    features := map[];
    var doc := parse(htmlContent);
    if doc.None? {
      return;
    }
    var text := new Builder();
    ExtractText(doc.value, text);
    assert text.contents == VisibleText(doc.value);
    var words := Fields(ToLower(u, text.contents));
    assert words == Words(u, doc.value);
    features := CountWords(u, words);
  }

  /** The counting loop of `ExtractHTMLFeatures`. */
  method CountWords(u: Unicode, words: seq<string>) returns (features: map<string, int>)
    ensures features == Tally(u, words)
  {
    features := map[];
    var i := 0;
    while i < |words|
      invariant 0 <= i <= |words|
      invariant features == Tally(u, words[..i])
    {
      TallyStep(u, words, i);
      var word := Map(KeepLetter(u), words[i]);
      word := TrimSpace(word);
      ghost var next := AddWord(features, word);
      if word != "" {
        features := features[word := Count(features)(word) + 1];
      }
      assert features == next;
      i := i + 1;
    }
    assert words[..i] == words;
  }

  lemma TallyStep(u: Unicode, words: seq<string>, i: nat)
    requires i < |words|
    ensures Tally(u, words[..i + 1]) == AddWord(Tally(u, words[..i]), Normalize(u, words[i]))
  {
    assert words[..i + 1][..i] == words[..i];
  }

  /** Every key of a feature map is a token. */
  lemma {:induction false} TallyKeysAreTokens(u: Unicode, words: seq<string>, k: string)
    requires k in Tally(u, words)
    ensures IsToken(u, k)
  {
    var w := Normalize(u, words[|words| - 1]);
    if k == w && w != "" {
      NormalizedIsToken(u, words[|words| - 1]);
    } else {
      TallyKeysAreTokens(u, words[..|words| - 1], k);
    }
  }

  lemma NormalizedIsToken(u: Unicode, word: string)
    requires Normalize(u, word) != ""
    ensures IsToken(u, Normalize(u, word))
  {
    var mapped := Map(KeepLetter(u), word);
    var w := TrimSpace(mapped);
    assert w == Normalize(u, word);
    TrimSpaceIsSlice(mapped);
    var i :| SliceBetweenSpaces(mapped, w, i);
    forall j | 0 <= j < |w|
      ensures w[j] == ' ' || (u.isLetter(w[j]) && !u.isPunct(w[j]))
    {
      MapAt(KeepLetter(u), word, i + j);
      assert w[j] == mapped[i + j] == KeepLetter(u)(word[i + j]);
    }
  }

  /** The words after normalisation, in order. */
  function NormalizedAll(u: Unicode, words: seq<string>): (r: seq<string>)
    ensures |r| == |words|
  {
    seq(|words|, j requires 0 <= j < |words| => Normalize(u, words[j]))
  }

  lemma NormalizedAllSnoc(u: Unicode, words: seq<string>)
    requires words != []
    ensures NormalizedAll(u, words)
      == NormalizedAll(u, words[..|words| - 1]) + [Normalize(u, words[|words| - 1])]
  {
    var a := NormalizedAll(u, words);
    var b := NormalizedAll(u, words[..|words| - 1]) + [Normalize(u, words[|words| - 1])];
    assert |a| == |b|;
    forall j | 0 <= j < |a|
      ensures a[j] == b[j]
    {
      if j < |words| - 1 {
        assert words[..|words| - 1][j] == words[j];
      }
    }
  }

  /** The keys of a feature map are the non-empty normalised words, and each
      count is the number of words that normalise to that key. */
  lemma {:induction false} TallyCounts(u: Unicode, words: seq<string>, k: string)
    ensures k in Tally(u, words) <==> k != "" && k in NormalizedAll(u, words)
    ensures k in Tally(u, words) ==> Tally(u, words)[k] == multiset(NormalizedAll(u, words))[k]
  {
    if words != [] {
      var front := words[..|words| - 1];
      TallyCounts(u, front, k);
      NormalizedAllSnoc(u, words);
    }
  }

  /** Every count in a feature map is at least 1. */
  lemma CountsPositive(u: Unicode, words: seq<string>, k: string)
    requires k in Tally(u, words)
    ensures Tally(u, words)[k] >= 1
  {
    TallyCounts(u, words, k);
    var ws := NormalizedAll(u, words);
    assert k in multiset(ws);
  }

  /** The counts add up to the number of words that survive normalisation,
      so never to more than the number of words. */
  lemma {:induction false} TallyTotal(u: Unicode, words: seq<string>)
    ensures Sum(Tally(u, words).Keys, Count(Tally(u, words)))
      == |words| - multiset(NormalizedAll(u, words))[""]
    ensures Sum(Tally(u, words).Keys, Count(Tally(u, words))) <= |words|
  {
    if words != [] {
      var front := words[..|words| - 1];
      var m := Tally(u, front);
      var w := Normalize(u, words[|words| - 1]);
      var t := Tally(u, words);
      TallyTotal(u, front);
      NormalizedAllSnoc(u, words);
      var before, after := multiset(NormalizedAll(u, front)), multiset(NormalizedAll(u, words));
      assert after == before + multiset{w};
      assert t == AddWord(m, w);
      SumAddWord(m, w);
      if w != "" {
        assert after[""] == before[""];
      } else {
        assert after[""] == before[""] + 1;
      }
    }
  }

  /** Counting a word adds one to the total, unless it is empty. */
  lemma SumAddWord(m: map<string, int>, w: string)
    ensures Sum(AddWord(m, w).Keys, Count(AddWord(m, w))) == Sum(m.Keys, Count(m)) + (if w == "" then 0 else 1)
  {
    if w != "" {
      SumIncrement(m, w);
    }
  }

  /** Adding one to a count adds one to the total. */
  lemma SumIncrement(m: map<string, int>, w: string)
    ensures Sum(m[w := Count(m)(w) + 1].Keys, Count(m[w := Count(m)(w) + 1])) == Sum(m.Keys, Count(m)) + 1
  {
    var m' := m[w := Count(m)(w) + 1];
    SumRemove(m'.Keys, Count(m'), w);
    if w in m {
      SumRemove(m.Keys, Count(m), w);
      assert m'.Keys - {w} == m.Keys - {w};
      SumCongruent(m.Keys - {w}, Count(m'), Count(m));
    } else {
      assert m'.Keys - {w} == m.Keys;
      SumCongruent(m.Keys, Count(m'), Count(m));
    }
  }

  // ---------------------------------------------------------------------
  // Digest bits (`toBits`)
  // ---------------------------------------------------------------------

  /** A BLAKE2b-512 digest: 64 bytes. */
  type Digest = d: seq<byte> | |d| == 64 witness seq(64, _ => 0)

  /** Bit `i` of a byte string read most significant bit first: bit
      `7 - i % 8` of byte `i / 8`, and false past the end. */
  predicate DigestBit(hash: seq<byte>, i: nat)
  {
    i < |hash| * 8 && (hash[i / 8] / Pow2(7 - i % 8)) % 2 == 1
  }

  /** `toBits`: the first `size` bits of `hash`, most significant bit of each
      byte first; positions past the end of `hash` stay false. */
  method ToBits(hash: seq<byte>, size: nat) returns (bits: array<bool>)
    ensures fresh(bits) && bits.Length == size
    ensures forall i :: 0 <= i < size ==> bits[i] == DigestBit(hash, i)
  {
    bits := new bool[size](_ => false);
    var i := 0;
    while i < size && i < |hash| * 8
      invariant 0 <= i <= size
      invariant forall j :: 0 <= j < i ==> bits[j] == DigestBit(hash, j)
      invariant forall j :: i <= j < size ==> !bits[j]
    {
      var byteIndex := i / 8;
      var bitIndex := 7 - i % 8;
      bits[i] := (hash[byteIndex] / Pow2(bitIndex)) % 2 == 1;
      i := i + 1;
    }
  }

  /** The number whose binary digits, most significant first, are `bits`. */
  function MsbFirst(bits: seq<bool>): nat
  {
    if bits == [] then 0 else 2 * MsbFirst(bits[..|bits| - 1]) + (if bits[|bits| - 1] then 1 else 0)
  }

  /** The eight digest bits that come from byte `b`. */
  function BitsOfByte(hash: seq<byte>, b: nat): (bits: seq<bool>)
    requires b < |hash|
    ensures |bits| == 8
  {
    seq(8, k requires 0 <= k < 8 => DigestBit(hash, 8 * b + k))
  }

  /** The first `n` bits read from byte `b`, put together most significant
      first, are the byte's top `n` bits. */
  lemma {:induction false} BitsOfBytePrefix(hash: seq<byte>, b: nat, n: nat)
    requires b < |hash| && n <= 8
    ensures MsbFirst(BitsOfByte(hash, b)[..n]) == hash[b] / Pow2(8 - n)
  {
    var bits := BitsOfByte(hash, b);
    var x: int := hash[b];
    if n == 0 {
      assert Pow2(8) == 256 by {
        assert Pow2(8) == 2 * Pow2(7) && Pow2(7) == 2 * Pow2(6) && Pow2(6) == 2 * Pow2(5);
        assert Pow2(5) == 2 * Pow2(4) && Pow2(4) == 2 * Pow2(3) && Pow2(3) == 2 * Pow2(2);
        assert Pow2(2) == 2 * Pow2(1) && Pow2(1) == 2 * Pow2(0);
      }
    } else {
      BitsOfBytePrefix(hash, b, n - 1);
      assert bits[..n][..n - 1] == bits[..n - 1];
      var p := Pow2(8 - n);
      var i := 8 * b + (n - 1);
      assert i / 8 == b && i % 8 == n - 1 && i < |hash| * 8;
      assert bits[n - 1] == DigestBit(hash, i);
      assert bits[n - 1] <==> (x / p) % 2 == 1;
      assert Pow2(9 - n) == p * 2;
      DivModNested(x, p, 2);
    }
  }

  /** The bits `toBits` reads from a byte, put back together most significant
      first, give the byte again: no bit is lost or reordered. */
  lemma BitsOfByteSpellByte(hash: seq<byte>, b: nat)
    requires b < |hash|
    ensures MsbFirst(BitsOfByte(hash, b)) == hash[b]
  {
    BitsOfBytePrefix(hash, b, 8);
    assert BitsOfByte(hash, b)[..8] == BitsOfByte(hash, b);
  }

  // ---------------------------------------------------------------------
  // The fingerprint (`CalculateSimHash`)
  // ---------------------------------------------------------------------

  /** Bit `b` of a 64-bit value, counted from the least significant bit. */
  predicate BitAt(h: bv64, b: bv7)
    requires b < 64
  {
    (h >> b) & 1 == 1
  }

  /** `h | 1 << b`. */
  function SetBitAt(h: bv64, b: bv7): bv64
    requires b < 64
  {
    h | (1 << b)
  }

  /** Bit `i` of a 64-bit value, for an integer position. */
  predicate Bit(h: bv64, i: nat)
    requires i < 64
  {
    BitAt(h, i as bv7)
  }

  /** `h | 1 << uint(i)`. */
  function SetBit(h: bv64, i: nat): bv64
    requires i < 64
  {
    SetBitAt(h, i as bv7)
  }

  lemma BitOfOrBv(h: bv64, i: bv7, j: bv7)
    requires i < 64 && j < 64
    ensures ((h | (1 << i)) >> j) & 1 == 1 <==> (h >> j) & 1 == 1 || i == j
  {
  }

  lemma BitAtOfOr(h: bv64, i: bv7, j: bv7)
    requires i < 64 && j < 64
    ensures BitAt(SetBitAt(h, i), j) <==> BitAt(h, j) || i == j
  {
    BitOfOrBv(h, i, j);
  }

  /** Positions below 64 survive the conversion to a shift amount. */
  lemma SmallIndex(i: nat)
    requires i < 64
    ensures (i as bv7) as int == i && (i as bv7) < 64
  {
  }

  /** Setting bit `i` sets bit `i` and leaves every other bit alone. */
  lemma BitOfOr(h: bv64, i: nat, j: nat)
    requires i < 64 && j < 64
    ensures Bit(SetBit(h, i), j) <==> Bit(h, j) || i == j
  {
    SmallIndex(i);
    SmallIndex(j);
    BitAtOfOr(h, i as bv7, j as bv7);
  }

  lemma NoBitOfZeroBv(j: bv7)
    requires j < 64
    ensures (0 as bv64 >> j) & 1 == 0
  {
  }

  lemma NoBitOfZero(j: nat)
    requires j < 64
    ensures !Bit(0, j)
  {
    SmallIndex(j);
    NoBitOfZeroBv(j as bv7);
  }

  /** The number of fingerprint bits: `size`, at most 64. */
  function Width(size: int): (w: nat)
    requires size >= 0
    ensures w <= 64 && w <= size && (w == size || w == 64)
  {
    if size > 64 then 64 else size
  }

  /** What feature `text` adds to position `i`: its weight when bit `i` of
      its digest is 1, minus its weight otherwise. */
  function Contribution(features: map<string, int>, blake2b: string -> Digest, i: nat): string -> int
  {
    text => if text in features then (if DigestBit(blake2b(text), i) then features[text] else -features[text]) else 0
  }

  /** `vectors[i]` once every feature has been added. */
  ghost function Vector(features: map<string, int>, blake2b: string -> Digest, i: nat): int
  {
    Sum(features.Keys, Contribution(features, blake2b, i))
  }

  /** The fingerprint `CalculateSimHash` builds from the votes: bit `i` is
      set when `votes[i]` is strictly positive. */
  function Fingerprint(votes: seq<int>): bv64
    requires |votes| <= 64
  {
    if votes == [] then 0
    else
      var h := Fingerprint(votes[..|votes| - 1]);
      if votes[|votes| - 1] > 0 then SetBit(h, |votes| - 1) else h
  }

  /** The votes at positions `0 .. n - 1`. */
  ghost function Votes(features: map<string, int>, blake2b: string -> Digest, n: nat): (v: seq<int>)
    ensures |v| == n
    ensures forall i :: 0 <= i < n ==> v[i] == Vector(features, blake2b, i)
  {
    seq(n, i requires 0 <= i < n => Vector(features, blake2b, i))
  }

  /** The simhash of a feature map. */
  ghost function SimHashOf(features: map<string, int>, size: int, blake2b: string -> Digest): bv64
    requires size >= 0
  {
    Fingerprint(Votes(features, blake2b, Width(size)))
  }

  /** `CalculateSimHash`; a negative size makes Go's `make` panic, so the
      caller passes a size of at least 0. */
  method CalculateSimHash(features: map<string, int>, size: int, blake2b: string -> Digest)
    returns (simhash: bv64)
    requires size >= 0
    ensures simhash == SimHashOf(features, size, blake2b)
  {
    var width := size;
    if width > 64 {
      width := 64;
    }
    var vectors := new int[width](_ => 0);
    ghost var visited: set<string> := {};
    var remaining := features.Keys;
    while remaining != {}
      invariant remaining !! visited && remaining + visited == features.Keys
      invariant forall j :: 0 <= j < width ==> vectors[j] == Sum(visited, Contribution(features, blake2b, j))
      decreases remaining
    {
      var text :| text in remaining;
      var weight := features[text];
      var hashBits := ToBits(blake2b(text), width);
      AddVotes(vectors, hashBits, weight);
      forall j | 0 <= j < width
        ensures vectors[j] == Sum(visited + {text}, Contribution(features, blake2b, j))
      {
        SumRemove(visited + {text}, Contribution(features, blake2b, j), text);
        assert (visited + {text}) - {text} == visited;
      }
      visited := visited + {text};
      remaining := remaining - {text};
    }
    assert vectors[..] == Votes(features, blake2b, width);
    simhash := BuildFingerprint(vectors);
  }

  /** The last loop of `CalculateSimHash`: bit `i` set for every strictly
      positive vote. */
  method BuildFingerprint(vectors: array<int>) returns (simhash: bv64)
    requires vectors.Length <= 64
    ensures simhash == Fingerprint(vectors[..])
  {
    simhash := 0;
    var i: nat := 0;
    while i < vectors.Length
      invariant i <= vectors.Length
      invariant simhash == Fingerprint(vectors[..i])
    {
      if vectors[i] > 0 {
        simhash := SetBit(simhash, i);
      }
      assert vectors[..i + 1][..i] == vectors[..i];
      i := i + 1;
    }
    assert vectors[..i] == vectors[..];
  }

  /** The inner loop of `CalculateSimHash`: one feature's weight added at the
      positions where its digest bit is 1 and subtracted elsewhere. */
  method AddVotes(vectors: array<int>, hashBits: array<bool>, weight: int)
    requires vectors.Length == hashBits.Length
    modifies vectors
    ensures forall j :: 0 <= j < vectors.Length ==>
      vectors[j] == old(vectors[j]) + (if hashBits[j] then weight else -weight)
  {
    var i := 0;
    while i < vectors.Length
      invariant 0 <= i <= vectors.Length
      invariant forall j :: 0 <= j < i ==> vectors[j] == old(vectors[j]) + (if hashBits[j] then weight else -weight)
      invariant forall j :: i <= j < vectors.Length ==> vectors[j] == old(vectors[j])
    {
      if hashBits[i] {
        vectors[i] := vectors[i] + weight;
      } else {
        vectors[i] := vectors[i] - weight;
      }
      i := i + 1;
    }
  }

  /** Bit `j` of a fingerprint is set exactly when vote `j` is strictly positive. */
  lemma {:induction false} FingerprintBits(votes: seq<int>)
    requires |votes| <= 64
    ensures forall j :: 0 <= j < 64 ==> (Bit(Fingerprint(votes), j) <==> j < |votes| && votes[j] > 0)
  {
    if votes == [] {
      forall j | 0 <= j < 64
        ensures !Bit(Fingerprint(votes), j)
      {
        NoBitOfZero(j);
      }
    } else {
      var n := |votes| - 1;
      var front := votes[..n];
      FingerprintBits(front);
      var h := Fingerprint(front);
      assert Fingerprint(votes) == if votes[n] > 0 then SetBit(h, n) else h;
      forall j | 0 <= j < 64
        ensures Bit(Fingerprint(votes), j) <==> j < |votes| && votes[j] > 0
      {
        if votes[n] > 0 {
          BitOfOr(h, n, j);
        }
        if j < n {
          assert votes[j] == front[j];
        }
      }
    }
  }

  /** Bit `j` of the simhash is set exactly when `j` is below the width and
      the weighted vote at position `j` is strictly positive: a tie leaves the
      bit at 0, and no bit at or above the width is ever set. */
  lemma SimHashBits(features: map<string, int>, size: int, blake2b: string -> Digest)
    requires size >= 0
    ensures forall j :: 0 <= j < 64 ==>
      (Bit(SimHashOf(features, size, blake2b), j) <==> j < Width(size) && Vector(features, blake2b, j) > 0)
  {
    FingerprintBits(Votes(features, blake2b, Width(size)));
  }

  /** No vote is positive, so no bit is set. */
  lemma {:induction false} FingerprintOfNonPositive(votes: seq<int>)
    requires |votes| <= 64
    requires forall i :: 0 <= i < |votes| ==> votes[i] <= 0
    ensures Fingerprint(votes) == 0
  {
    if votes != [] {
      FingerprintOfNonPositive(votes[..|votes| - 1]);
    }
  }

  /** An empty feature map, or a width of 0, gives the simhash 0. */
  lemma EmptySimHash(features: map<string, int>, size: int, blake2b: string -> Digest)
    requires size >= 0
    ensures SimHashOf(map[], size, blake2b) == 0
    ensures SimHashOf(features, 0, blake2b) == 0
  {
    FingerprintOfNonPositive(Votes(map[], blake2b, Width(size)));
  }

  /** With one feature of positive weight, the simhash is the first `Width`
      bits of that feature's digest. */
  lemma SingleFeature(text: string, weight: int, size: int, blake2b: string -> Digest)
    requires weight > 0 && size >= 0
    ensures forall j :: 0 <= j < 64 ==>
      (Bit(SimHashOf(map[text := weight], size, blake2b), j) <==> j < Width(size) && DigestBit(blake2b(text), j))
  {
    var features := map[text := weight];
    SimHashBits(features, size, blake2b);
    forall j: nat | j < 64
      ensures Vector(features, blake2b, j) > 0 <==> DigestBit(blake2b(text), j)
    {
      SumRemove(features.Keys, Contribution(features, blake2b, j), text);
      assert features.Keys - {text} == {};
    }
  }

  /** Visiting the features in any order adds up to the same vote: the
      simhash does not depend on the order of map iteration. */
  lemma VoteInAnyOrder(features: map<string, int>, blake2b: string -> Digest, i: nat, order: seq<string>)
    requires Distinct(order) && Elements(order) == features.Keys
    ensures SumSeq(order, Contribution(features, blake2b, i)) == Vector(features, blake2b, i)
  {
    SumInAnyOrder(order, Contribution(features, blake2b, i));
  }

  // ---------------------------------------------------------------------
  // Storage form (`EncodeSimHash`, `DecodeSimHash`)
  // ---------------------------------------------------------------------

  /** `byte(h >> (8 * i))`: byte `i` of `h`, counted from the least
      significant end. */
  function ByteOf(h: bv64, i: nat): byte
  {
    ((h as int) / Pow256(i)) % 256
  }

  /** The 8 bytes `EncodeSimHash` lays out, least significant first. */
  function Pack(h: bv64): (bs: seq<byte>)
    ensures |bs| == 8
  {
    seq(8, i requires 0 <= i < 8 => ByteOf(h, i))
  }

  /** The number whose base-256 digits, least significant first, are `bs`. */
  function LittleEndian(bs: seq<byte>): (v: nat)
    ensures v < Pow256(|bs|)
  {
    if bs == [] then 0
    else
      var low := LittleEndian(bs[..|bs| - 1]);
      var p := Pow256(|bs| - 1);
      NextDigitBound(low, bs[|bs| - 1], 256, p);
      low + bs[|bs| - 1] * p
  }

  lemma Pow256Eight()
    ensures Pow256(8) == 0x1_0000_0000_0000_0000
  {
    assert Pow256(8) == 256 * Pow256(7) && Pow256(7) == 256 * Pow256(6) && Pow256(6) == 256 * Pow256(5);
    assert Pow256(5) == 256 * Pow256(4) && Pow256(4) == 256 * Pow256(3) && Pow256(3) == 256 * Pow256(2);
    assert Pow256(2) == 256 * Pow256(1) && Pow256(1) == 256 * Pow256(0);
  }

  lemma {:induction false} Pow256Grows(m: nat, n: nat)
    requires m <= n
    ensures Pow256(m) <= Pow256(n)
  {
    if m < n {
      Pow256Grows(m, n - 1);
    }
  }

  /** A number below 2^64 as a `uint64`. */
  function ToUint64(v: nat): bv64
    requires v < 0x1_0000_0000_0000_0000
  {
    v as bv64
  }

  lemma ToUint64OfValue(h: bv64)
    ensures h as int < 0x1_0000_0000_0000_0000 && ToUint64(h as int) == h
  {
  }

  /** The first `min(|bs|, 8)` bytes of `bs`, read least significant first,
      as a 64-bit value. */
  function Unpack(bs: seq<byte>): bv64
  {
    var n := if |bs| < 8 then |bs| else 8;
    Pow256Grows(n, 8);
    Pow256Eight();
    ToUint64(LittleEndian(bs[..n]))
  }

  /** What `DecodeSimHash` returns: the value and whether an error is
      reported (the value is 0 when it is). */
  function Decoded(encoded: string): (bv64, bool)
  {
    match Base64.Decode(encoded)
    case None => (0, true)
    case Some(bs) => (Unpack(bs), false)
  }

  /** `EncodeSimHash`. */
  method EncodeSimHash(simhash: bv64) returns (encoded: string)
    ensures encoded == Base64.Encode(Pack(simhash))
    ensures |encoded| == 12
  {
    var bytes := new byte[8](_ => 0);
    var i := 0;
    while i < 8
      invariant 0 <= i <= 8
      invariant forall j :: 0 <= j < i ==> bytes[j] == ByteOf(simhash, j)
    {
      bytes[i] := ((simhash as int) / Pow256(i)) % 256;
      i := i + 1;
    }
    assert bytes[..] == Pack(simhash);
    encoded := Base64.Encode(bytes[..]);
    EncodedLength(simhash);
  }

  /** Eight bytes take twelve base64 characters, the last one padding. */
  lemma EncodedLength(h: bv64)
    ensures |Base64.Encode(Pack(h))| == 12
  {
    assert Base64.Groups(8) == 3;
  }

  /** `DecodeSimHash`: invalid base64 gives 0 and an error; otherwise the
      first eight bytes, least significant first, and fewer than eight are
      read as if followed by zeros. */
  method DecodeSimHash(encoded: string) returns (simhash: bv64, err: bool)
    ensures (simhash, err) == Decoded(encoded)
  {
    var decoded := Base64.Decode(encoded);
    if decoded.None? {
      return 0, true;
    }
    var bytes := decoded.value;
    var acc: nat := 0;
    var i := 0;
    while i < |bytes| && i < 8
      invariant 0 <= i <= |bytes| && i <= 8
      invariant acc == LittleEndian(bytes[..i])
    {
      LittleEndianStep(bytes, i);
      acc := acc + bytes[i] * Pow256(i);
      i := i + 1;
    }
    Pow256Grows(i, 8);
    Pow256Eight();
    simhash := ToUint64(acc);
    err := false;
    assert bytes[..i] == bytes[..if |bytes| < 8 then |bytes| else 8];
  }

  lemma LittleEndianStep(bs: seq<byte>, i: nat)
    requires i < |bs|
    ensures LittleEndian(bs[..i + 1]) == LittleEndian(bs[..i]) + bs[i] * Pow256(i)
  {
    assert bs[..i + 1][..i] == bs[..i];
  }

  /** The first `n` packed bytes, read back, are `h` modulo `256^n`. */
  lemma {:induction false} LittleEndianOfPack(h: bv64, n: nat)
    requires n <= 8
    ensures LittleEndian(Pack(h)[..n]) == (h as int) % Pow256(n)
  {
    if n > 0 {
      LittleEndianOfPack(h, n - 1);
      var bs := Pack(h)[..n];
      assert bs[..n - 1] == Pack(h)[..n - 1];
      var p := Pow256(n - 1);
      DivModNested(h as int, p, 256);
    }
  }

  /** Reading back the packed bytes gives the simhash again. */
  lemma UnpackPack(h: bv64)
    ensures Unpack(Pack(h)) == h
  {
    LittleEndianOfPack(h, 8);
    Pow256Eight();
    ToUint64OfValue(h);
    assert Pack(h)[..8] == Pack(h);
    DivModUnique(h as int, Pow256(8), 0, h as int);
  }

  /** `DecodeSimHash(EncodeSimHash(h))` returns `h` and no error. */
  lemma DecodeEncodeSimHash(h: bv64)
    ensures Decoded(Base64.Encode(Pack(h))) == (h, false)
  {
    Base64.DecodeEncode(Pack(h));
    UnpackPack(h);
  }

  /** A decoded payload shorter than eight bytes reads as if padded with zero
      bytes. */
  lemma UnpackZeroExtends(bs: seq<byte>)
    requires |bs| < 8
    ensures Unpack(bs + [0]) == Unpack(bs)
  {
    var c := bs + [0];
    assert c[..|c|] == c && c[..|c| - 1] == bs && bs[..|bs|] == bs;
    assert LittleEndian(c) == LittleEndian(bs) + 0 * Pow256(|bs|);
  }

  /** Bytes after the eighth are ignored. */
  lemma UnpackIgnoresExtra(bs: seq<byte>, extra: seq<byte>)
    requires |bs| >= 8
    ensures Unpack(bs + extra) == Unpack(bs)
  {
    assert (bs + extra)[..8] == bs[..8];
  }

  lemma Regroup(d: int, q: int, p: int)
    ensures d * ((256 * p) * q) == ((d * q) * 256) * p
  {
  }

  /** Digit `i` in base 256 of a little-endian number is byte `i`: the
      bytes `DecodeSimHash` combines occupy separate bit ranges, so adding
      them is the same as or-ing them. */
  lemma {:induction false} LittleEndianDigit(c: seq<byte>, i: nat)
    requires i < |c|
    ensures (LittleEndian(c) / Pow256(i)) % 256 == c[i]
  {
    var m := |c| - 1;
    var low := LittleEndian(c[..m]);
    var d := c[m];
    var pi := Pow256(i);
    assert LittleEndian(c) == low + d * Pow256(m);
    if i == m {
      DivModUnique(LittleEndian(c), pi, d, low);
    } else {
      LittleEndianDigit(c[..m], i);
      var q := Pow256(m - i - 1);
      Pow256Add(i + 1, m - i - 1);
      assert Pow256(i + 1) == 256 * pi;
      var k := d * q;
      Regroup(d, q, pi);
      assert d * Pow256(m) == (k * 256) * pi;
      DivAddMultiple(low, k * 256, pi);
      DivAddMultiple(low / pi, k, 256);
    }
  }
}
