/**
 * The calldata of a module's `resolve`: the abstract words the analysis assumes (`calldata` of
 * pure_module_bound.py) against the bytes GameHub sends (`encode_calldata` of concrete_oracle.py).
 */
module ResolveCalldata {
  import opened Binary
  import opened Bytes
  import opened Evm
  import opened ConcreteOracle
  import opened ModuleBound
  import opened Simulation

  /** Words a byte string of `n` bytes is padded to. */
  function DataWords(n: nat): nat { (n + 31) / 32 }

  // ---- The two encodings ----------------------------------------------------------------------------------------

  /** Params may be known word by word; amounts, stop limits, bet id and random word are unknown. */
  function AbstractWords(betCount: Word, params: seq<AVal>, paramsLen: nat): seq<AVal>
    requires paramsLen <= 64
  {
    [K(7 * 32), U, K(betCount), U, U, U, K(7 * 32 + 32 + 32 * DataWords(paramsLen)), K(paramsLen)]
    + seq(DataWords(paramsLen), k => if 0 <= k < |params| then params[k] else U)
    + [K(1), U]
  }

  function AbstractCalldata(selector: nat, betCount: Word, params: seq<AVal>, paramsLen: nat): Calldata
    requires paramsLen <= 64
  {
    WordsOf(selector, AbstractWords(betCount, params, paramsLen))
  }

  function WordsOf(selector: nat, aws: seq<AVal>): Calldata {
    Calldata(selector, map o | o in WordOffsets(|aws|) :: aws[(o - 4) / 32], 4 + 32 * |aws|)
  }

  function OffsetOf(t: nat): nat { 4 + 32 * t }

  function WordOffsets(n: nat): set<nat> { set t: nat | t < n :: OffsetOf(t) }

  lemma IsWordOffset(off: nat, n: nat)
    ensures off in WordOffsets(n) <==> 4 <= off < 4 + 32 * n && (off - 4) % 32 == 0
  {
    if 4 <= off < 4 + 32 * n && (off - 4) % 32 == 0 {
      assert off == OffsetOf((off - 4) / 32);
    }
  }

  function Padded(params: seq<byte>): seq<byte> {
    params + Zeros(32 * DataWords(|params|) - |params|)
  }

  function W(v: Word): seq<byte> { ToBytes(v, 32) }

  function EncodeCalldata(selector: nat, params: seq<byte>, amount: Word, betCount: Word, stopGain: Word, stopLoss: Word,
                          betId: Word, word: Word): seq<byte>
    requires |params| <= 64
  {
    var head := W(7 * 32) + W(amount) + W(betCount) + W(stopGain) + W(stopLoss) + W(betId)
                + W(7 * 32 + 32 + |Padded(params)|);
    var tail := W(|params|) + Padded(params) + W(1) + W(word);
    ToBytes(selector, 4) + head + tail
  }

  // ---- Byte strings made of words -----------------------------------------------------------------------------------

  function Flatten(ws: seq<Word>): (b: seq<byte>)
    ensures |b| == 32 * |ws|
  {
    if ws == [] then [] else ToBytes(ws[0], 32) + Flatten(ws[1..])
  }

  lemma {:induction false} FlattenConcat(a: seq<Word>, b: seq<Word>)
    ensures Flatten(a + b) == Flatten(a) + Flatten(b)
  {
    if a == [] {
      assert a + b == b;
    } else {
      assert (a + b)[1..] == a[1..] + b;
      FlattenConcat(a[1..], b);
    }
  }

  lemma {:induction false} FlattenAt(ws: seq<Word>, t: nat)
    requires t < |ws|
    ensures Flatten(ws)[32 * t..32 * t + 32] == ToBytes(ws[t], 32)
  {
    hide ToBytes;
    if t > 0 {
      FlattenAt(ws[1..], t - 1);
      DropFirst(ToBytes(ws[0], 32), Flatten(ws[1..]), 32 * (t - 1));
    }
  }

  lemma DropFirst(a: seq<byte>, b: seq<byte>, i: nat)
    requires |a| == 32 && i + 32 <= |b|
    ensures (a + b)[32 + i..32 + i + 32] == b[i..i + 32]
  {
  }

  lemma {:induction false} ToFromBytes(b: seq<byte>)
    ensures ToBytes(FromBytes(b), |b|) == b
  {
    if b != [] {
      ToFromBytes(b[..|b| - 1]);
      assert b == b[..|b| - 1] + [b[|b| - 1]];
    }
  }

  /** The words of a byte string of whole words. */
  function Chunks(b: seq<byte>): (ws: seq<Word>)
    requires |b| % 32 == 0
    ensures 32 * |ws| == |b|
  {
    if |b| == 0 then [] else [WordOf(b, 0)] + Chunks(b[32..])
  }

  lemma {:induction false} FlattenChunks(b: seq<byte>)
    requires |b| % 32 == 0
    ensures Flatten(Chunks(b)) == b
  {
    if |b| > 0 {
      FlattenChunks(b[32..]);
      ToFromBytes(b[0..32]);
      assert Chunks(b)[1..] == Chunks(b[32..]);
      assert b == b[0..32] + b[32..];
    }
  }

  /** Reading behind a head reads the body. */
  lemma ReadBehind(head: seq<byte>, body: seq<byte>, at: nat, w: seq<byte>)
    requires at + 32 <= |body| && body[at..at + 32] == w
    ensures Rd(head + body, |head| + at, 32) == w
  {
    assert (head + body)[|head| + at..|head| + at + 32] == body[at..at + 32];
  }

  /** An aligned load behind a selector reads one word. */
  lemma LoadAligned(selector: nat, ws: seq<Word>, t: nat)
    requires t < |ws|
    ensures LoadWord(ToBytes(selector, 4) + Flatten(ws), 4 + 32 * t) == ws[t]
  {
    FlattenAt(ws, t);
    ReadBehind(ToBytes(selector, 4), Flatten(ws), 32 * t, ToBytes(ws[t], 32));
    Pow256Word();
    FromToBytes(ws[t], 32);
  }

  /** A load at offset 0 reads the selector and all but the last four bytes of the first word. */
  lemma LoadSelector(selector: nat, ws: seq<Word>)
    requires selector < 0x1_0000_0000 && |ws| > 0
    ensures LoadWord(ToBytes(selector, 4) + Flatten(ws), 0) == SelectorWord(selector, ws[0])
  {
    var cd := ToBytes(selector, 4) + Flatten(ws);
    var first := ToBytes(ws[0], 32);
    assert Rd(cd, 0, 32) == ToBytes(selector, 4) + first[..28];
    SelectorBytes(selector, ws[0]);
  }

  lemma SelectorBytes(selector: nat, w: Word)
    requires selector < 0x1_0000_0000
    ensures FromBytes(ToBytes(selector, 4) + ToBytes(w, 32)[..28]) == SelectorWord(selector, w)
  {
    Pow256Word();
    FromBytesConcat(ToBytes(selector, 4), ToBytes(w, 32)[..28]);
    FromToBytes(selector, 4);
    TopBytes(w);
    BelowWord(selector, w / 0x1_0000_0000);
  }

  lemma BelowWord(selector: nat, rest: nat)
    requires selector < 0x1_0000_0000 && rest < TWO_256 / 0x1_0000_0000
    ensures selector * (TWO_256 / 0x1_0000_0000) + rest == Wrap(selector * (TWO_256 / 0x1_0000_0000) + rest)
  {
  }

  lemma TopBytes(w: Word)
    ensures FromBytes(ToBytes(w, 32)[..28]) == w / 0x1_0000_0000 < TWO_256 / 0x1_0000_0000
  {
    var b := ToBytes(w, 32);
    Pow256Word();
    FromToBytes(w, 32);
    assert b == b[..28] + b[28..];
    FromBytesConcat(b[..28], b[28..]);
    assert w == FromBytes(b[..28]) * 0x1_0000_0000 + FromBytes(b[28..]);
  }

  // ---- The concrete calldata instantiates the abstract one ----------------------------------------------------------

  function ResolveWords(params: seq<byte>, amount: Word, betCount: Word, stopGain: Word, stopLoss: Word,
                        betId: Word, word: Word): seq<Word>
    requires |params| <= 64
  {
    [7 * 32, amount, betCount, stopGain, stopLoss, betId, 7 * 32 + 32 + |Padded(params)|, |params|]
    + Chunks(Padded(params)) + [1, word]
  }

  lemma EncodedAsWords(selector: nat, params: seq<byte>, amount: Word, betCount: Word, stopGain: Word, stopLoss: Word,
                       betId: Word, word: Word)
    requires |params| <= 64
    ensures EncodeCalldata(selector, params, amount, betCount, stopGain, stopLoss, betId, word)
         == ToBytes(selector, 4) + Flatten(ResolveWords(params, amount, betCount, stopGain, stopLoss, betId, word))
  {
    var head: seq<Word> := [7 * 32, amount, betCount, stopGain, stopLoss, betId, 7 * 32 + 32 + |Padded(params)|, |params|];
    FlattenConcat(head, Chunks(Padded(params)));
    FlattenConcat(head + Chunks(Padded(params)), [1, word]);
    FlattenChunks(Padded(params));
    FlattenHead(head);
    FlattenTwo(1, word);
    Regroup(ToBytes(selector, 4), W(head[0]) + W(head[1]) + W(head[2]) + W(head[3]) + W(head[4]) + W(head[5]) + W(head[6]),
            W(head[7]), Padded(params), W(1), W(word));
  }

  lemma Regroup(a: seq<byte>, b: seq<byte>, c: seq<byte>, d: seq<byte>, e: seq<byte>, f: seq<byte>)
    ensures a + b + (c + d + e + f) == a + (b + c + d + (e + f))
  {
  }

  lemma FlattenTwo(a: Word, b: Word)
    ensures Flatten([a, b]) == W(a) + W(b)
  {
    assert [a, b][1..] == [b] && [b][1..] == [];
  }

  lemma FlattenHead(h: seq<Word>)
    requires |h| == 8
    ensures Flatten(h) == W(h[0]) + W(h[1]) + W(h[2]) + W(h[3]) + W(h[4]) + W(h[5]) + W(h[6]) + W(h[7])
  {
    assert h == [h[0], h[1]] + ([h[2], h[3]] + ([h[4], h[5]] + [h[6], h[7]]));
    FlattenTwo(h[0], h[1]);
    FlattenTwo(h[2], h[3]);
    FlattenTwo(h[4], h[5]);
    FlattenTwo(h[6], h[7]);
    FlattenConcat([h[4], h[5]], [h[6], h[7]]);
    FlattenConcat([h[2], h[3]], [h[4], h[5]] + [h[6], h[7]]);
    FlattenConcat([h[0], h[1]], [h[2], h[3]] + ([h[4], h[5]] + [h[6], h[7]]));
  }

  /** The known params words are those of the concrete params. */
  ghost predicate ParamsMatch(aparams: seq<AVal>, params: seq<byte>) {
    forall k :: 0 <= k < |aparams| && k < DataWords(|params|) ==> Matches(aparams[k], Chunks(Padded(params))[k])
  }

  lemma WordsMatch(aparams: seq<AVal>, params: seq<byte>, amount: Word, betCount: Word, stopGain: Word, stopLoss: Word,
                   betId: Word, word: Word)
    requires |params| <= 64 && ParamsMatch(aparams, params)
    ensures StackMatches(AbstractWords(betCount, aparams, |params|),
                         ResolveWords(params, amount, betCount, stopGain, stopLoss, betId, word))
  {
  }

  /** Whatever values the unknown words take, the calldata GameHub sends agrees with the abstract one. */
  lemma CalldataInstantiates(selector: nat, aparams: seq<AVal>, params: seq<byte>, amount: Word, betCount: Word,
                             stopGain: Word, stopLoss: Word, betId: Word, word: Word)
    requires selector < 0x1_0000_0000 && |params| <= 64 && ParamsMatch(aparams, params)
    ensures Instantiates(AbstractCalldata(selector, betCount, aparams, |params|),
                         EncodeCalldata(selector, params, amount, betCount, stopGain, stopLoss, betId, word))
  {
    var aws := AbstractWords(betCount, aparams, |params|);
    var ws := ResolveWords(params, amount, betCount, stopGain, stopLoss, betId, word);
    var acd := AbstractCalldata(selector, betCount, aparams, |params|);
    var cd := ToBytes(selector, 4) + Flatten(ws);
    EncodedAsWords(selector, params, amount, betCount, stopGain, stopLoss, betId, word);
    WordsMatch(aparams, params, amount, betCount, stopGain, stopLoss, betId, word);
    forall off: Word | CdLoad(acd, K(off)).K? ensures CdLoad(acd, K(off)).v == LoadWord(cd, off) {
      LoadMatches(selector, aws, ws, off);
    }
  }

  lemma LoadPastEnd(selector: nat, ws: seq<Word>, off: nat)
    requires off >= 4 + 32 * |ws|
    ensures LoadWord(ToBytes(selector, 4) + Flatten(ws), off) == 0
  {
    FromZeros(Rd(ToBytes(selector, 4) + Flatten(ws), off, 32));
  }

  /** What the abstract calldata answers at an offset. */
  lemma LoadOfWords(selector: nat, aws: seq<AVal>, off: Word)
    requires selector < 0x1_0000_0000 && |aws| > 0
    ensures var r := CdLoad(WordsOf(selector, aws), K(off));
      && (off >= 4 + 32 * |aws| ==> r == K(0))
      && (0 < off < 4 + 32 * |aws| ==> r == U || (off in WordOffsets(|aws|) && r == aws[(off - 4) / 32]))
      && (off == 0 ==> r == if aws[0].U? then U else K(SelectorWord(selector, aws[0].v)))
  {
    IsWordOffset(off, |aws|);
    IsWordOffset(4, |aws|);
  }

  /** A value that agrees with the words where the abstract calldata answers matches its answer. */
  lemma MatchesByCases(selector: nat, aws: seq<AVal>, ws: seq<Word>, off: Word, got: Word)
    requires selector < 0x1_0000_0000 && |ws| > 0 && StackMatches(aws, ws)
    requires off >= 4 + 32 * |aws| ==> got == 0
    requires off == 0 ==> got == SelectorWord(selector, ws[0])
    requires off in WordOffsets(|aws|) && (off - 4) / 32 < |ws| ==> got == ws[(off - 4) / 32]
    ensures Matches(CdLoad(WordsOf(selector, aws), K(off)), got)
  {
    LoadOfWords(selector, aws, off);
    IsWordOffset(off, |aws|);
    assert Matches(aws[0], ws[0]);
    assert off in WordOffsets(|aws|) ==> Matches(aws[(off - 4) / 32], ws[(off - 4) / 32]);
  }

  lemma LoadMatches(selector: nat, aws: seq<AVal>, ws: seq<Word>, off: Word)
    requires selector < 0x1_0000_0000 && |ws| > 0 && StackMatches(aws, ws)
    ensures Matches(CdLoad(WordsOf(selector, aws), K(off)), LoadWord(ToBytes(selector, 4) + Flatten(ws), off))
  {
    IsWordOffset(off, |aws|);
    if off >= 4 + 32 * |aws| {
      LoadPastEnd(selector, ws, off);
    }
    if off == 0 {
      LoadSelector(selector, ws);
    }
    if off in WordOffsets(|aws|) {
      LoadAligned(selector, ws, (off - 4) / 32);
    }
    MatchesByCases(selector, aws, ws, off, LoadWord(ToBytes(selector, 4) + Flatten(ws), off));
  }

  // ---- What either encoding says ---------------------------------------------------------------------------------

  /**
   * Following the offsets in the head of the encoding, as the Contract ABI Specification decodes it, finds every argument;
   * params are padded with zeros to the fewest whole words.
   */
  lemma DecodesAsSent(selector: nat, params: seq<byte>, amount: Word, betCount: Word, stopGain: Word, stopLoss: Word,
                      betId: Word, word: Word)
    requires selector < 0x1_0000_0000 && |params| <= 64
    ensures var cd := EncodeCalldata(selector, params, amount, betCount, stopGain, stopLoss, betId, word);
      var p, w := 4 + LoadWord(cd, 4), 4 + LoadWord(cd, 4 + 32 * 6);
      && 4 <= |cd| && FromBytes(cd[..4]) == selector
      && LoadWord(cd, 4 + 32) == amount && LoadWord(cd, 4 + 32 * 2) == betCount
      && LoadWord(cd, 4 + 32 * 3) == stopGain && LoadWord(cd, 4 + 32 * 4) == stopLoss && LoadWord(cd, 4 + 32 * 5) == betId
      && LoadWord(cd, p) == |params| && p + 32 + |params| <= w && w + 64 == |cd| && cd[p + 32..p + 32 + |params|] == params
      && w < p + 64 + |params| && (forall i :: p + 32 + |params| <= i < w ==> cd[i] == 0)
      && LoadWord(cd, w) == 1 && LoadWord(cd, w + 32) == word
  {
    hide LoadWord, ToBytes, FromBytes, EncodeCalldata, Padded, Flatten, Chunks;
    var ws := ResolveWords(params, amount, betCount, stopGain, stopLoss, betId, word);
    EncodedAsWords(selector, params, amount, betCount, stopGain, stopLoss, betId, word);
    EncodedParts(selector, params, amount, betCount, stopGain, stopLoss, betId, word);
    var cd := EncodeCalldata(selector, params, amount, betCount, stopGain, stopLoss, betId, word);
    var d := DataWords(|params|);
    FirstSlots(selector, ws, cd);
    Slot(selector, ws, cd, 6);
    Slot(selector, ws, cd, 7);
    Slot(selector, ws, cd, 8 + d);
    Slot(selector, ws, cd, 9 + d);
  }

  lemma Slot(selector: nat, ws: seq<Word>, cd: seq<byte>, t: nat)
    requires cd == ToBytes(selector, 4) + Flatten(ws) && t < |ws|
    ensures LoadWord(cd, 4 + 32 * t) == ws[t]
  {
    LoadAligned(selector, ws, t);
  }

  lemma FirstSlots(selector: nat, ws: seq<Word>, cd: seq<byte>)
    requires cd == ToBytes(selector, 4) + Flatten(ws) && |ws| > 5
    ensures LoadWord(cd, 4) == ws[0] && LoadWord(cd, 4 + 32) == ws[1] && LoadWord(cd, 4 + 32 * 2) == ws[2]
    ensures LoadWord(cd, 4 + 32 * 3) == ws[3] && LoadWord(cd, 4 + 32 * 4) == ws[4] && LoadWord(cd, 4 + 32 * 5) == ws[5]
  {
    hide LoadWord, ToBytes, Flatten;
    Slot(selector, ws, cd, 0);
    Slot(selector, ws, cd, 1);
    Slot(selector, ws, cd, 2);
    Slot(selector, ws, cd, 3);
    Slot(selector, ws, cd, 4);
    Slot(selector, ws, cd, 5);
  }

  lemma EncodedParts(selector: nat, params: seq<byte>, amount: Word, betCount: Word, stopGain: Word, stopLoss: Word,
                     betId: Word, word: Word)
    requires selector < 0x1_0000_0000 && |params| <= 64
    ensures var cd, d := EncodeCalldata(selector, params, amount, betCount, stopGain, stopLoss, betId, word), DataWords(|params|);
      && |Padded(params)| == 32 * d && |cd| == 4 + 32 * (10 + d)
      && FromBytes(cd[..4]) == selector && cd[4 + 32 * 8..4 + 32 * 8 + |params|] == params
      && (forall i :: 4 + 32 * 8 + |params| <= i < 4 + 32 * (8 + d) ==> cd[i] == 0)
  {
    hide ToBytes, FromBytes;
    Pow256Word();
    FromToBytes(selector, 4);
    var cd := EncodeCalldata(selector, params, amount, betCount, stopGain, stopLoss, betId, word);
    var head := W(7 * 32) + W(amount) + W(betCount) + W(stopGain) + W(stopLoss) + W(betId)
                + W(7 * 32 + 32 + |Padded(params)|);
    assert cd[..4] == ToBytes(selector, 4);
    assert cd == (ToBytes(selector, 4) + head + W(|params|)) + params + (Zeros(32 * DataWords(|params|) - |params|) + W(1) + W(word));
  }

  /** What the analysis knows: the offsets, the number of rolls, the lengths, the given params words and the zeros past the end. */
  lemma AbstractKnownIff(selector: nat, betCount: Word, aparams: seq<AVal>, paramsLen: nat, off: Word)
    requires selector < 0x1_0000_0000 && paramsLen <= 64
    ensures var cd, d := AbstractCalldata(selector, betCount, aparams, paramsLen), DataWords(paramsLen);
      CdLoad(cd, K(off)).K? <==>
        || off == 0 || off >= 4 + 32 * (10 + d)
        || off in {4, 4 + 32 * 2, 4 + 32 * 6, 4 + 32 * 7, 4 + 32 * (8 + d)}
        || exists k: nat :: k < d && k < |aparams| && off == OffsetOf(8 + k) && aparams[k].K?
  {
    hide SelectorWord;
    var aws, d := AbstractWords(betCount, aparams, paramsLen), DataWords(paramsLen);
    assert |aws| == 10 + d;
    LoadOfWords(selector, aws, off);
    IsWordOffset(off, |aws|);
    if off in WordOffsets(|aws|) {
      var t := (off - 4) / 32;
      assert off == OffsetOf(t);
      assert 8 <= t < 8 + d ==> aws[t] == if t - 8 < |aparams| then aparams[t - 8] else U;
    }
  }
}
