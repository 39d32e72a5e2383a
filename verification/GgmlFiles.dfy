/** What a model file that loads looks like, byte by byte (convert_llama_ggml_to_gguf.py). */
module GgmlFiles {
  import opened Wrappers
  import opened Bytes
  import opened GgmlLoader

  // ----- header

  /** The text stands there, in ASCII. */
  predicate Holds(data: seq<Byte>, at: nat, text: string) {
    at + |text| <= |data| && forall i :: 0 <= i < |text| ==> data[at + i] == text[i] as int
  }

  /** A 32-bit number, the least significant byte first. */
  predicate HoldsNumber(data: seq<Byte>, at: nat, n: nat) {
    && at + 4 <= |data|
    && var b0, b1, b2, b3 := data[at] as int, data[at + 1] as int, data[at + 2] as int, data[at + 3] as int;
       n == b0 + 256 * b1 + 65536 * b2 + 16777216 * b3
  }

  lemma MagicIs(data: seq<Byte>, at: nat, text: string, magic: seq<Byte>)
    requires |text| == 4 == |magic| && forall i :: 0 <= i < 4 ==> magic[i] == text[i] as int
    ensures Slice(data, at, at + 4) == magic <==> Holds(data, at, text)
  {
    var s := Slice(data, at, at + 4);
    if Holds(data, at, text) {
      assert forall i :: 0 <= i < 4 ==> s[i] == data[at + i];
    }
    if s == magic {
      assert |s| == 4 && forall i :: 0 <= i < 4 ==> s[i] == data[at + i];
    }
  }

  lemma MagicsAre(data: seq<Byte>, at: nat)
    ensures Slice(data, at, at + 4) == MAGIC_GGUF <==> Holds(data, at, "GGUF")
    ensures Slice(data, at, at + 4) == MAGIC_GGML <==> Holds(data, at, "lmgg")
    ensures Slice(data, at, at + 4) == MAGIC_GGMF <==> Holds(data, at, "fmgg")
    ensures Slice(data, at, at + 4) == MAGIC_GGJT <==> Holds(data, at, "tjgg")
  {
    MagicIs(data, at, "GGUF", MAGIC_GGUF);
    MagicIs(data, at, "lmgg", MAGIC_GGML);
    MagicIs(data, at, "fmgg", MAGIC_GGMF);
    MagicIs(data, at, "tjgg", MAGIC_GGJT);
  }

  /** One of the headers there are: `lmgg`, `fmgg` and version 1, or `tjgg` and version 1, 2 or 3. */
  predicate HeaderAt(data: seq<Byte>, at: nat, h: Header, len: nat) {
    || (h == Header(GGML, 1) && len == 4 && Holds(data, at, "lmgg"))
    || (h == Header(GGMF, 1) && len == 8 && Holds(data, at, "fmgg") && HoldsNumber(data, at + 4, 1))
    || (h.format.GGJT? && 1 <= h.version <= 3 && len == 8 && Holds(data, at, "tjgg")
        && HoldsNumber(data, at + 4, h.version))
  }

  /** Exactly these are read. */
  lemma HeaderIff(data: seq<Byte>, at: nat, h: Header, len: nat)
    ensures ReadHeader(data, at) == Some((h, len)) <==> HeaderAt(data, at, h, len)
  {
    MagicsAre(data, at);
    assert MAGIC_GGML[0] != MAGIC_GGMF[0] && MAGIC_GGML[0] != MAGIC_GGJT[0] && MAGIC_GGMF[0] != MAGIC_GGJT[0];
    assert MAGIC_GGUF[0] != MAGIC_GGML[0] && MAGIC_GGUF[0] != MAGIC_GGMF[0] && MAGIC_GGUF[0] != MAGIC_GGJT[0];
  }

  // ----- hyperparameters

  lemma NumberIs(data: seq<Byte>, at: nat, n: nat)
    ensures HoldsNumber(data, at, n) <==> at + 4 <= |data| && WordAt(data, at) == n
  {
  }

  predicate FtypeExists(ftype: nat) {
    ftype in {0, 1, 2, 3, 4, 7, 8, 9, 10, 11, 12, 13, 14, 15, 16, 17, 18}
  }

  /** Seven numbers in this order; the last must be a file type that exists. */
  predicate HyperAt(data: seq<Byte>, at: nat, y: Hyper) {
    && HoldsNumber(data, at, y.nVocab) && HoldsNumber(data, at + 4, y.nEmbd)
    && HoldsNumber(data, at + 8, y.nMult) && HoldsNumber(data, at + 12, y.nHead)
    && HoldsNumber(data, at + 16, y.nLayer) && HoldsNumber(data, at + 20, y.nRot)
    && HoldsNumber(data, at + 24, y.ftype) && FtypeExists(y.ftype)
  }

  /** Exactly these are read. */
  lemma HyperIff(data: seq<Byte>, at: nat, y: Hyper)
    ensures ReadHyper(data, at) == Some(y) <==> HyperAt(data, at, y)
  {
    NumberIs(data, at, y.nVocab);
    NumberIs(data, at + 4, y.nEmbd);
    NumberIs(data, at + 8, y.nMult);
    NumberIs(data, at + 12, y.nHead);
    NumberIs(data, at + 16, y.nLayer);
    NumberIs(data, at + 20, y.nRot);
    NumberIs(data, at + 24, y.ftype);
    SevenWords(data, at);
    FtypesExist(y.ftype);
  }

  lemma FtypesExist(ftype: nat)
    ensures KnownFtype(ftype) <==> FtypeExists(ftype)
  {
  }

  lemma SevenWords(data: seq<Byte>, at: nat)
    ensures at + 28 > |data| ==> WordsAt(data, at, 7) == None
    ensures at + 28 <= |data| ==>
              WordsAt(data, at, 7) == Some([WordAt(data, at), WordAt(data, at + 4), WordAt(data, at + 8),
                                            WordAt(data, at + 12), WordAt(data, at + 16), WordAt(data, at + 20),
                                            WordAt(data, at + 24)])
  {
    if at + 28 <= |data| {
      var w := WordsAt(data, at, 7).value;
      assert w == [w[0], w[1], w[2], w[3], w[4], w[5], w[6]];
    }
  }

  /** Before GGJT version 2 only 32-bit and 16-bit floats can be converted, in that version everything but the four
      types whose layout changed, and later everything. */
  predicate Eligible(h: Header, ftype: nat) {
    || h == Header(GGJT, 3)
    || (h == Header(GGJT, 2) && ftype !in {2, 3, 4, 7})
    || ftype in {0, 1}
  }

  lemma ConvertibleIff(h: Header, ftype: nat)
    requires FtypeExists(ftype) && (h.format.GGJT? ==> 1 <= h.version <= 3)
    ensures Convertible(h, ftype) <==> Eligible(h, ftype)
  {
  }

  /** How a file begins is accepted exactly if it is one of the headers, the seven numbers, and a file type that the
      format allows. */
  lemma StartIff(data: seq<Byte>, at: nat, h: Header, y: Hyper, len: nat)
    ensures ReadStart(data, at) == Some((h, y, at + len + 28)) <==>
              HeaderAt(data, at, h, len) && HyperAt(data, at + len, y) && Eligible(h, y.ftype)
  {
    HeaderIff(data, at, h, len);
    HyperIff(data, at + len, y);
    if HeaderAt(data, at, h, len) && HyperAt(data, at + len, y) {
      ConvertibleIff(h, y.ftype);
    }
    StartParts(data, at, h, y, len);
  }

  lemma StartParts(data: seq<Byte>, at: nat, h: Header, y: Hyper, len: nat)
    ensures ReadStart(data, at) == Some((h, y, at + len + 28)) <==>
              ReadHeader(data, at) == Some((h, len)) && ReadHyper(data, at + len) == Some(y) && Convertible(h, y.ftype)
  {
  }

  /** So begins every file that loads. */
  lemma LoadedFileStarts(data: seq<Byte>, at: nat, quants: Quants) returns (len: nat)
    requires Load(data, at, quants).Some?
    ensures var m := Load(data, at, quants).value;
            HeaderAt(data, at, m.header, len) && HyperAt(data, at + len, m.hyper) && Eligible(m.header, m.hyper.ftype)
  {
    var (h, y, _) := ReadStart(data, at).value;
    len := ReadHeader(data, at).value.1;
    StartIff(data, at, h, y, len);
  }

  // ----- records

  /** A vocabulary entry is read exactly if its length is below 4096 and stands there, and a score of four bytes
      follows where the format has scores. A text that is cut short is taken as it is. */
  lemma ItemIff(data: seq<Byte>, at: nat, scored: bool, len: nat)
    requires HoldsNumber(data, at, len)
    ensures ReadItem(data, at, scored).Some? <==> len < 4096 && (scored ==> at + 8 + len <= |data|)
    ensures ReadItem(data, at, scored).Some? ==>
              var (item, next) := ReadItem(data, at, scored).value;
              && next == at + 4 + len + (if scored then 4 else 0)
              && (at + 4 + len <= |data| ==> item.text == data[at + 4..at + 4 + len])
              && (at + 4 + len > |data| ==> item.text == data[at + 4..])
              && item.score == (if scored then data[next - 4..next] else [])
  {
    NumberIs(data, at, len);
  }

  lemma ThreeWords(data: seq<Byte>, at: nat)
    requires at + 12 <= |data|
    ensures WordsAt(data, at, 3) == Some([WordAt(data, at), WordAt(data, at + 4), WordAt(data, at + 8)])
  {
    var w := WordsAt(data, at, 3).value;
    assert w == [w[0], w[1], w[2]];
  }

  lemma ShapeIs(data: seq<Byte>, at: nat, quants: Quants, n: nat, len: nat, dtype: nat)
    requires at + 12 <= |data|
    requires n == WordAt(data, at) && len == WordAt(data, at + 4) && dtype == WordAt(data, at + 8)
    ensures var nameAt := at + 12 + 4 * n;
            ReadShape(data, at, quants) ==
            if n <= 4 && len < 4096 && !quants(dtype).Unknown? && nameAt <= |data| then
              Some((Shape(Slice(data, nameAt, nameAt + len), WordsAt(data, at + 12, n).value, dtype), nameAt + len))
            else None
  {
    ThreeWords(data, at);
  }

  lemma WordsAre(data: seq<Byte>, at: nat, n: nat)
    requires at + 4 * n <= |data|
    ensures var v := WordsAt(data, at, n).value;
            |v| == n && forall i :: 0 <= i < n ==> HoldsNumber(data, at + 4 * i, v[i])
  {
    var v := WordsAt(data, at, n).value;
    forall i | 0 <= i < n
      ensures HoldsNumber(data, at + 4 * i, v[i])
    {
      NumberIs(data, at + 4 * i, v[i]);
    }
  }

  /** A tensor record has at most four extents and a name of less than 4096 bytes, and its type is known. Its data
      starts behind the name, at the next multiple of 32 where the format pads, and takes whole blocks. */
  lemma TensorIff(data: seq<Byte>, at: nat, padded: bool, quants: Quants, n: nat, len: nat, dtype: nat)
    requires HoldsNumber(data, at, n) && HoldsNumber(data, at + 4, len) && HoldsNumber(data, at + 8, dtype)
    ensures ReadTensor(data, at, padded, quants).Some? <==>
              n <= 4 && len < 4096 && !quants(dtype).Unknown? && at + 12 + 4 * n <= |data|
    ensures ReadTensor(data, at, padded, quants).Some? ==>
              var t := ReadTensor(data, at, padded, quants).value.0;
              var nameAt := at + 12 + 4 * n;
              && t.dtype == dtype && |t.dims| == n
              && (forall i :: 0 <= i < n ==> HoldsNumber(data, at + 12 + 4 * i, t.dims[i]))
              && (nameAt + len <= |data| ==> t.name == data[nameAt..nameAt + len])
              && nameAt + len <= t.start < nameAt + len + 32
              && (if padded then t.start % 32 == 0 else t.start == nameAt + len)
              && t.len == Elements(t.dims) * quants(dtype).size / quants(dtype).block
  {
    NumberIs(data, at, n);
    NumberIs(data, at + 4, len);
    NumberIs(data, at + 8, dtype);
    ShapeIs(data, at, quants, n, len, dtype);
    if at + 12 + 4 * n <= |data| {
      WordsAre(data, at + 12, n);
    }
  }

  // ----- loaded records

  /** The records follow each other from an offset on. */
  predicate Follow(data: seq<Byte>, from: nat, padded: bool, quants: Quants, ts: seq<Tensor>)
    decreases |ts|
  {
    ts == [] ||
    (&& ReadTensor(data, from, padded, quants) == Some((ts[0], ts[0].start + ts[0].len))
     && Follow(data, ts[0].start + ts[0].len, padded, quants, ts[1..]))
  }

  lemma FollowCons(data: seq<Byte>, at: nat, padded: bool, quants: Quants, t: Tensor, rest: seq<Tensor>)
    requires ReadTensor(data, at, padded, quants) == Some((t, t.start + t.len))
    requires Follow(data, t.start + t.len, padded, quants, rest)
    ensures Follow(data, at, padded, quants, [t] + rest)
  {
    assert ([t] + rest)[1..] == rest;
  }

  lemma {:induction false} RecordsFollow(data: seq<Byte>, at: nat, padded: bool, quants: Quants)
    requires ReadTensors(data, at, padded, quants).Some?
    ensures Follow(data, at, padded, quants, ReadTensors(data, at, padded, quants).value.0)
    decreases |data| - at
  {
    if at < |data| {
      var (t, next) := ReadTensor(data, at, padded, quants).value;
      TensorsCons(data, at, padded, quants);
      RecordsFollow(data, next, padded, quants);
      FollowCons(data, at, padded, quants, t, ReadTensors(data, next, padded, quants).value.0);
    }
  }

  lemma {:induction false} ItemsAre(data: seq<Byte>, at: nat, n: nat, scored: bool)
    requires ReadItems(data, at, n, scored).Some?
    ensures var items := ReadItems(data, at, n, scored).value.0;
            |items| == n && forall i :: 0 <= i < n ==> |items[i].score| == if scored then 4 else 0
    decreases n
  {
    if n > 0 {
      ItemsAre(data, ReadItem(data, at, scored).value.1, n - 1, scored);
    }
  }

  /** In a file that loads there are as many vocabulary entries as the first number says, with scores in all formats
      but the first, and the tensor records follow each other, with padding only in GGJT. */
  lemma LoadedRecords(data: seq<Byte>, at: nat, quants: Quants) returns (from: nat)
    requires Load(data, at, quants).Some?
    ensures var m := Load(data, at, quants).value;
            && |m.vocab| == m.hyper.nVocab
            && (forall i :: 0 <= i < |m.vocab| ==> |m.vocab[i].score| == if m.header.format.GGML? then 0 else 4)
            && Follow(data, from, m.header.format.GGJT?, quants, m.tensors)
  {
    var start := ReadStart(data, at).value;
    ItemsAre(data, start.2, start.1.nVocab, !start.0.format.GGML?);
    from := ReadItems(data, start.2, start.1.nVocab, !start.0.format.GGML?).value.1;
    RecordsFollow(data, from, start.0.format.GGJT?, quants);
  }

  /** The name is that text, in ASCII. */
  predicate Named(name: seq<Byte>, text: string) {
    |name| == |text| && forall i :: 0 <= i < |text| ==> name[i] == text[i] as int
  }

  lemma FeedForwardName()
    ensures Named(Ascii(FEED_FORWARD), "layers.0.feed_forward.w1.weight")
  {
    assert forall i :: 0 <= i < |FEED_FORWARD| ==> FEED_FORWARD[i] as int < 256;
  }

  /** The tensor a name is mapped to is the last one with that name. */
  lemma LastNamed(ts: seq<Tensor>, name: seq<Byte>)
    requires name in NameMap(Names(ts))
    ensures var i := NameMap(Names(ts))[name];
            && i < |ts| && ts[i].name == name
            && forall j :: i < j < |ts| ==> ts[j].name != name
  {
    var names, i := Names(ts), NameMap(Names(ts))[name];
    forall j | i < j < |ts|
      ensures ts[j].name != name
    {
      assert names[i + 1..][j - (i + 1)] == ts[j].name;
    }
  }

  lemma SizeFound(ts: seq<Tensor>)
    requires FeedForward(NameMap(Names(ts)), ts).Some?
    ensures exists i :: 0 <= i < |ts|
                        && Named(ts[i].name, "layers.0.feed_forward.w1.weight")
                        && |ts[i].dims| >= 2 && FeedForward(NameMap(Names(ts)), ts) == Some(ts[i].dims[1])
                        && forall j :: i < j < |ts| ==> ts[j].name != ts[i].name
  {
    var name := Ascii(FEED_FORWARD);
    FeedForwardName();
    LastNamed(ts, name);
    var i := NameMap(Names(ts))[name];
    assert |ts[i].dims| >= 2;
  }

  /** The feed-forward size of a loaded file is the second extent of its last tensor with that name. */
  lemma FeedForwardIs(data: seq<Byte>, at: nat, quants: Quants)
    requires Load(data, at, quants).Some?
    ensures var m := Load(data, at, quants).value;
            exists i :: 0 <= i < |m.tensors|
                        && Named(m.tensors[i].name, "layers.0.feed_forward.w1.weight")
                        && |m.tensors[i].dims| >= 2 && m.nFf == m.tensors[i].dims[1]
                        && forall j :: i < j < |m.tensors| ==> m.tensors[j].name != m.tensors[i].name
  {
    SizeFound(Load(data, at, quants).value.tensors);
  }
}
