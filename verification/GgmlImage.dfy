/** A reference writer of GGML, GGMF and GGJT files, and the proof that the loader of
    convert_llama_ggml_to_gguf.py recovers everything it wrote. */
module GgmlImage {
  import opened Wrappers
  import opened Bytes
  import opened GgmlLoader

  /** What a file holds; each record carries its own data. */
  datatype Record = Record(name: seq<Byte>, dims: seq<nat>, dtype: nat, data: seq<Byte>)

  datatype File = File(header: Header, hyper: Hyper, vocab: seq<Item>, records: seq<Record>)

  predicate Word(x: nat) { x < 0x1_0000_0000 }

  predicate Words(xs: seq<nat>) { forall i :: 0 <= i < |xs| ==> Word(xs[i]) }

  // ----- what may be written

  predicate HeaderOk(h: Header) {
    match h.format
    case GGML => h.version == 1
    case GGMF => h.version == 1
    case GGJT => 1 <= h.version <= 3
  }

  predicate HyperOk(h: Hyper) {
    Words(HyperWords(h)) && KnownFtype(h.ftype)
  }

  predicate ItemOk(item: Item, scored: bool) {
    |item.text| < 4096 && |item.score| == if scored then 4 else 0
  }

  predicate RecordOk(r: Record, quants: Quants) {
    && |r.dims| <= 4 && Words(r.dims) && |r.name| < 4096 && Word(r.dtype)
    && quants(r.dtype).Quant? && |r.data| == DataBytes(r.dims, quants(r.dtype))
  }

  function RecordNames(rs: seq<Record>): (names: seq<seq<Byte>>) {
    seq(|rs|, i requires 0 <= i < |rs| => rs[i].name)
  }

  /** The record that gives the feed-forward size: the last of its name. */
  predicate HasFeedForward(rs: seq<Record>, k: nat) {
    && k < |rs| && rs[k].name == Ascii(FEED_FORWARD) && |rs[k].dims| >= 2
    && forall i :: k < i < |rs| ==> rs[i].name != rs[k].name
  }

  predicate FileOk(f: File, quants: Quants) {
    && HeaderOk(f.header) && HyperOk(f.hyper) && Convertible(f.header, f.hyper.ftype)
    && |f.vocab| == f.hyper.nVocab
    && (forall i :: 0 <= i < |f.vocab| ==> ItemOk(f.vocab[i], !f.header.format.GGML?))
    && (forall i :: 0 <= i < |f.records| ==> RecordOk(f.records[i], quants))
  }

  // ----- writing

  function PutU32(x: nat): (b: seq<Byte>)
    ensures |b| == 4
  {
    [x % 0x100, x / 0x100 % 0x100, x / 0x1_0000 % 0x100, x / 0x100_0000 % 0x100]
  }

  function PutU32s(xs: seq<nat>): (b: seq<Byte>)
    ensures |b| == 4 * |xs|
  {
    if xs == [] then [] else PutU32(xs[0]) + PutU32s(xs[1..])
  }

  function PutHeader(h: Header): (b: seq<Byte>)
    ensures |b| == if h.format.GGML? then 4 else 8
  {
    match h.format
    case GGML => MAGIC_GGML
    case GGMF => MAGIC_GGMF + PutU32(h.version)
    case GGJT => MAGIC_GGJT + PutU32(h.version)
  }

  function HyperWords(h: Hyper): (xs: seq<nat>) {
    [h.nVocab, h.nEmbd, h.nMult, h.nHead, h.nLayer, h.nRot, h.ftype]
  }

  function PutStart(header: Header, hyper: Hyper): (b: seq<Byte>)
    ensures |b| == |PutHeader(header)| + 28
  {
    PutHeader(header) + PutU32s(HyperWords(hyper))
  }

  function PutItem(item: Item): (b: seq<Byte>)
    ensures |b| == 4 + |item.text| + |item.score|
  {
    PutU32(|item.text|) + (item.text + item.score)
  }

  function PutItems(items: seq<Item>): (b: seq<Byte>)
  {
    if items == [] then [] else PutItem(items[0]) + PutItems(items[1..])
  }

  /** The fixed part of a record. */
  function PutShape(r: Record): (b: seq<Byte>)
    ensures |b| == 12 + 4 * |r.dims| + |r.name|
  {
    PutU32s([|r.dims|, |r.name|, r.dtype]) + (PutU32s(r.dims) + r.name)
  }

  function Padding(at: nat, padded: bool): (b: seq<Byte>)
    ensures at + |b| == DataStart(at, padded)
  {
    seq(DataStart(at, padded) - at, i => 0)
  }

  function PutRecord(r: Record, at: nat, padded: bool): (b: seq<Byte>)
  {
    var shape := PutShape(r);
    shape + (Padding(at + |shape|, padded) + r.data)
  }

  function PutRecords(rs: seq<Record>, at: nat, padded: bool): (b: seq<Byte>)
    decreases |rs|
  {
    if rs == [] then []
    else
      var first := PutRecord(rs[0], at, padded);
      first + PutRecords(rs[1..], at + |first|, padded)
  }

  /** The bytes of a file placed at an offset. */
  function PutFile(f: File, at: nat): (b: seq<Byte>)
  {
    var start := PutStart(f.header, f.hyper);
    var vocab := PutItems(f.vocab);
    start + (vocab + PutRecords(f.records, at + |start| + |vocab|, f.header.format.GGJT?))
  }

  // ----- bytes at an offset

  ghost predicate At(data: seq<Byte>, at: nat, b: seq<Byte>) {
    at + |b| <= |data| && data[at..at + |b|] == b
  }

  lemma AtSplit(data: seq<Byte>, at: nat, a: seq<Byte>, b: seq<Byte>)
    requires At(data, at, a + b)
    ensures At(data, at, a) && At(data, at + |a|, b)
  {
    var n := |a + b|;
    assert data[at..at + n][..|a|] == data[at..at + |a|];
    assert (a + b)[..|a|] == a;
    assert data[at..at + n][|a|..] == data[at + |a|..at + n];
    assert (a + b)[|a|..] == b;
  }

  lemma AtByte(data: seq<Byte>, at: nat, b: seq<Byte>, i: nat)
    requires At(data, at, b) && i < |b|
    ensures at + i < |data| && data[at + i] == b[i]
  {
    assert data[at..at + |b|][i] == data[at + i];
  }

  // ----- reading back

  lemma TwoBytes(x: nat)
    ensures x / 0x100 / 0x100 == x / 0x1_0000
  {
  }

  lemma ThreeBytes(x: nat)
    ensures x / 0x1_0000 / 0x100 == x / 0x100_0000
  {
  }

  lemma WordBytes(x: nat)
    requires Word(x)
    ensures U32(x % 0x100, x / 0x100 % 0x100, x / 0x1_0000 % 0x100, x / 0x100_0000 % 0x100) == x
  {
    var a, b, c := x / 0x100, x / 0x1_0000, x / 0x100_0000;
    TwoBytes(x);
    ThreeBytes(x);
    assert x == 0x100 * a + x % 0x100;
    assert a == 0x100 * b + a % 0x100;
    assert b == 0x100 * c + b % 0x100;
  }

  lemma WordRecovered(data: seq<Byte>, at: nat, x: nat)
    requires Word(x) && At(data, at, PutU32(x))
    ensures at + 4 <= |data| && WordAt(data, at) == x
  {
    var b := PutU32(x);
    AtByte(data, at, b, 0);
    AtByte(data, at, b, 1);
    AtByte(data, at, b, 2);
    AtByte(data, at, b, 3);
    WordBytes(x);
  }

  lemma {:induction false} EachWordRecovered(data: seq<Byte>, at: nat, xs: seq<nat>, i: nat)
    requires Words(xs) && At(data, at, PutU32s(xs)) && i < |xs|
    ensures at + 4 * |xs| <= |data| && WordAt(data, at + 4 * i) == xs[i]
    decreases |xs|
  {
    AtSplit(data, at, PutU32(xs[0]), PutU32s(xs[1..]));
    if i == 0 {
      WordRecovered(data, at, xs[0]);
    } else {
      EachWordRecovered(data, at + 4, xs[1..], i - 1);
    }
  }

  lemma WordsRecovered(data: seq<Byte>, at: nat, xs: seq<nat>)
    requires Words(xs) && At(data, at, PutU32s(xs))
    ensures WordsAt(data, at, |xs|) == Some(xs)
  {
    assert at + 4 * |xs| <= |data|;
    forall i | 0 <= i < |xs|
      ensures WordAt(data, at + 4 * i) == xs[i]
    {
      EachWordRecovered(data, at, xs, i);
    }
    WordsAtIs(data, at, xs);
  }

  lemma WordsAtIs(data: seq<Byte>, at: nat, xs: seq<nat>)
    requires at + 4 * |xs| <= |data| && forall i :: 0 <= i < |xs| ==> WordAt(data, at + 4 * i) == xs[i]
    ensures WordsAt(data, at, |xs|) == Some(xs)
  {
    var words := WordsAt(data, at, |xs|).value;
    forall i | 0 <= i < |xs|
      ensures words[i] == xs[i]
    {
      assert words[i] == WordAt(data, at + 4 * i);
    }
    SameWords(words, xs);
  }

  lemma SameWords(a: seq<nat>, b: seq<nat>)
    requires |a| == |b| && forall i :: 0 <= i < |b| ==> a[i] == b[i]
    ensures a == b
  {
  }

  lemma SliceAt(data: seq<Byte>, at: nat, b: seq<Byte>)
    requires At(data, at, b)
    ensures Slice(data, at, at + |b|) == b
  {
  }

  lemma HeaderRecovered(data: seq<Byte>, at: nat, h: Header)
    requires HeaderOk(h) && At(data, at, PutHeader(h))
    ensures ReadHeader(data, at) == Some((h, |PutHeader(h)|))
  {
    match h.format
    case GGML =>
      SliceAt(data, at, MAGIC_GGML);
    case GGMF =>
      AtSplit(data, at, MAGIC_GGMF, PutU32(h.version));
      SliceAt(data, at, MAGIC_GGMF);
      WordRecovered(data, at + 4, h.version);
    case GGJT =>
      AtSplit(data, at, MAGIC_GGJT, PutU32(h.version));
      SliceAt(data, at, MAGIC_GGJT);
      WordRecovered(data, at + 4, h.version);
  }

  lemma HyperRecovered(data: seq<Byte>, at: nat, h: Hyper)
    requires HyperOk(h) && At(data, at, PutU32s(HyperWords(h)))
    ensures ReadHyper(data, at) == Some(h)
  {
    WordsRecovered(data, at, HyperWords(h));
  }

  lemma ItemRecovered(data: seq<Byte>, at: nat, item: Item, scored: bool)
    requires ItemOk(item, scored) && At(data, at, PutItem(item))
    ensures ReadItem(data, at, scored) == Some((item, at + |PutItem(item)|))
  {
    AtSplit(data, at, PutU32(|item.text|), item.text + item.score);
    AtSplit(data, at + 4, item.text, item.score);
    WordRecovered(data, at, |item.text|);
    SliceAt(data, at + 4, item.text);
  }

  lemma ItemsCons(data: seq<Byte>, at: nat, n: nat, scored: bool, item: Item, next: nat, rest: seq<Item>, end: nat)
    requires n > 0 && ReadItem(data, at, scored) == Some((item, next))
    requires ReadItems(data, next, n - 1, scored) == Some((rest, end))
    ensures ReadItems(data, at, n, scored) == Some(([item] + rest, end))
  {
  }

  ghost predicate ItemsOk(items: seq<Item>, scored: bool) {
    forall i :: 0 <= i < |items| ==> ItemOk(items[i], scored)
  }

  lemma ItemsSplit(data: seq<Byte>, at: nat, items: seq<Item>, scored: bool) returns (next: nat)
    requires items != [] && ItemsOk(items, scored) && At(data, at, PutItems(items))
    ensures ReadItem(data, at, scored) == Some((items[0], next))
    ensures ItemsOk(items[1..], scored) && At(data, next, PutItems(items[1..]))
    ensures next + |PutItems(items[1..])| == at + |PutItems(items)|
  {
    var first := PutItem(items[0]);
    AtSplit(data, at, first, PutItems(items[1..]));
    ItemRecovered(data, at, items[0], scored);
    next := at + |first|;
  }

  lemma {:induction false} ItemsRecovered(data: seq<Byte>, at: nat, items: seq<Item>, scored: bool, end: nat)
    requires ItemsOk(items, scored) && At(data, at, PutItems(items)) && end == at + |PutItems(items)|
    ensures ReadItems(data, at, |items|, scored) == Some((items, end))
    decreases |items|
  {
    if items != [] {
      var next := ItemsSplit(data, at, items, scored);
      var rest := items[1..];
      ItemsRecovered(data, next, rest, scored, end);
      ItemsCons(data, at, |rest| + 1, scored, items[0], next, rest, end);
      assert [items[0]] + rest == items;
    }
  }

  /** A table entry describes a record, and points at its data. */
  ghost predicate Locates(t: Tensor, r: Record, data: seq<Byte>) {
    && t.name == r.name && t.dims == r.dims && t.dtype == r.dtype
    && t.len == |r.data| && At(data, t.start, r.data)
  }

  lemma ReadShapeIs(data: seq<Byte>, at: nat, quants: Quants, dims: seq<nat>, name: seq<Byte>, dtype: nat, nameAt: nat)
    requires |dims| <= 4 && |name| < 4096 && quants(dtype).Quant? && nameAt == at + 12 + 4 * |dims|
    requires WordsAt(data, at, 3) == Some([|dims|, |name|, dtype])
    requires WordsAt(data, at + 12, |dims|) == Some(dims)
    requires Slice(data, nameAt, nameAt + |name|) == name
    ensures ReadShape(data, at, quants) == Some((Shape(name, dims, dtype), nameAt + |name|))
  {
  }

  lemma ReadTensorIs(data: seq<Byte>, at: nat, padded: bool, quants: Quants, t: Tensor, end: nat, next: nat)
    requires ReadShape(data, at, quants) == Some((Shape(t.name, t.dims, t.dtype), end))
    requires t.start == DataStart(end, padded) && t.len == DataBytes(t.dims, quants(t.dtype))
    requires next == t.start + t.len
    ensures ReadTensor(data, at, padded, quants) == Some((t, next))
  {
  }

  lemma ShapeParts(data: seq<Byte>, at: nat, r: Record)
    requires At(data, at, PutShape(r))
    ensures At(data, at, PutU32s([|r.dims|, |r.name|, r.dtype])) && At(data, at + 12, PutU32s(r.dims))
    ensures At(data, at + 12 + 4 * |r.dims|, r.name)
  {
    AtSplit(data, at, PutU32s([|r.dims|, |r.name|, r.dtype]), PutU32s(r.dims) + r.name);
    AtSplit(data, at + 12, PutU32s(r.dims), r.name);
  }

  lemma ShapeWords(data: seq<Byte>, at: nat, r: Record, quants: Quants)
    requires RecordOk(r, quants) && At(data, at, PutU32s([|r.dims|, |r.name|, r.dtype]))
    ensures WordsAt(data, at, 3) == Some([|r.dims|, |r.name|, r.dtype])
  {
    var v: seq<nat> := [|r.dims|, |r.name|, r.dtype];
    WordsRecovered(data, at, v);
  }

  lemma ShapeFields(data: seq<Byte>, at: nat, r: Record, quants: Quants)
    requires RecordOk(r, quants) && At(data, at, PutShape(r))
    ensures WordsAt(data, at, 3) == Some([|r.dims|, |r.name|, r.dtype])
    ensures WordsAt(data, at + 12, |r.dims|) == Some(r.dims)
    ensures Slice(data, at + 12 + 4 * |r.dims|, at + 12 + 4 * |r.dims| + |r.name|) == r.name
  {
    ShapeParts(data, at, r);
    ShapeWords(data, at, r, quants);
    WordsRecovered(data, at + 12, r.dims);
    SliceAt(data, at + 12 + 4 * |r.dims|, r.name);
  }

  lemma ShapeRecovered(data: seq<Byte>, at: nat, r: Record, quants: Quants)
    requires RecordOk(r, quants) && At(data, at, PutShape(r))
    ensures ReadShape(data, at, quants) == Some((Shape(r.name, r.dims, r.dtype), at + |PutShape(r)|))
  {
    ShapeFields(data, at, r, quants);
    ReadShapeIs(data, at, quants, r.dims, r.name, r.dtype, at + 12 + 4 * |r.dims|);
  }

  /** Where a record's data goes. */
  lemma DataPlaced(data: seq<Byte>, at: nat, r: Record, padded: bool, end: nat, start: nat)
    requires At(data, at, PutRecord(r, at, padded))
    requires end == at + |PutShape(r)| && start == DataStart(end, padded)
    ensures At(data, at, PutShape(r)) && At(data, start, r.data)
    ensures start + |r.data| == at + |PutRecord(r, at, padded)|
  {
    var shape := PutShape(r);
    var pad := Padding(end, padded);
    AtSplit(data, at, shape, pad + r.data);
    AtSplit(data, end, pad, r.data);
  }

  lemma RecordRecovered(data: seq<Byte>, at: nat, r: Record, padded: bool, quants: Quants, next: nat)
    returns (t: Tensor)
    requires RecordOk(r, quants) && At(data, at, PutRecord(r, at, padded)) && next == at + |PutRecord(r, at, padded)|
    ensures ReadTensor(data, at, padded, quants) == Some((t, next))
    ensures Locates(t, r, data)
  {
    var end := at + |PutShape(r)|;
    var start := DataStart(end, padded);
    DataPlaced(data, at, r, padded, end, start);
    ShapeRecovered(data, at, r, quants);
    t := Tensor(r.name, r.dims, r.dtype, start, |r.data|);
    ReadTensorIs(data, at, padded, quants, t, end, next);
  }

  /** The table lists the records in order. */
  ghost predicate Table(ts: seq<Tensor>, rs: seq<Record>, data: seq<Byte>) {
    |ts| == |rs| && forall i :: 0 <= i < |rs| ==> Locates(ts[i], rs[i], data)
  }

  lemma TableCons(t: Tensor, ts: seq<Tensor>, rs: seq<Record>, data: seq<Byte>)
    requires rs != [] && Locates(t, rs[0], data) && Table(ts, rs[1..], data)
    ensures Table([t] + ts, rs, data)
  {
    forall i | 0 <= i < |rs|
      ensures Locates(([t] + ts)[i], rs[i], data)
    {
      if i > 0 {
        assert rs[1..][i - 1] == rs[i];
      }
    }
  }

  ghost predicate RecordsOk(rs: seq<Record>, quants: Quants) {
    forall i :: 0 <= i < |rs| ==> RecordOk(rs[i], quants)
  }

  lemma RecordsCons(rs: seq<Record>, at: nat, padded: bool, next: nat)
    requires rs != [] && next == at + |PutRecord(rs[0], at, padded)|
    ensures PutRecords(rs, at, padded) == PutRecord(rs[0], at, padded) + PutRecords(rs[1..], next, padded)
  {
  }

  lemma RecordsSplit(data: seq<Byte>, at: nat, rs: seq<Record>, padded: bool, quants: Quants)
    returns (t: Tensor, next: nat)
    requires rs != [] && RecordsOk(rs, quants) && At(data, at, PutRecords(rs, at, padded))
    ensures ReadTensor(data, at, padded, quants) == Some((t, next)) && Locates(t, rs[0], data)
    ensures RecordsOk(rs[1..], quants) && At(data, next, PutRecords(rs[1..], next, padded))
    ensures next + |PutRecords(rs[1..], next, padded)| == at + |PutRecords(rs, at, padded)|
  {
    var first := PutRecord(rs[0], at, padded);
    next := at + |first|;
    var rest := PutRecords(rs[1..], next, padded);
    RecordsCons(rs, at, padded, next);
    AtSplit(data, at, first, rest);
    t := RecordRecovered(data, at, rs[0], padded, quants, next);
  }

  /** The rest of the file holds the records and nothing else. */
  ghost predicate RecordsLeft(data: seq<Byte>, at: nat, rs: seq<Record>, padded: bool) {
    At(data, at, PutRecords(rs, at, padded)) && at + |PutRecords(rs, at, padded)| == |data|
  }

  lemma {:induction false} RecordsRecovered(data: seq<Byte>, at: nat, rs: seq<Record>, padded: bool, quants: Quants)
    returns (ts: seq<Tensor>)
    requires RecordsOk(rs, quants) && RecordsLeft(data, at, rs, padded)
    ensures ReadTensors(data, at, padded, quants) == Some((ts, |data|))
    ensures Table(ts, rs, data)
    decreases |rs|
  {
    if rs == [] {
      ts := [];
    } else {
      var t, next := RecordsSplit(data, at, rs, padded, quants);
      var rest := RecordsRecovered(data, next, rs[1..], padded, quants);
      ts := [t] + rest;
      TensorsCons(data, at, padded, quants);
      TableCons(t, rest, rs, data);
    }
  }

  lemma ReadStartIs(data: seq<Byte>, at: nat, header: Header, n: nat, hyper: Hyper)
    requires ReadHeader(data, at) == Some((header, n)) && ReadHyper(data, at + n) == Some(hyper)
    requires Convertible(header, hyper.ftype)
    ensures ReadStart(data, at) == Some((header, hyper, at + n + 28))
  {
  }

  lemma StartRecovered(data: seq<Byte>, at: nat, f: File, quants: Quants, end: nat)
    requires FileOk(f, quants) && At(data, at, PutStart(f.header, f.hyper))
    requires end == at + |PutStart(f.header, f.hyper)|
    ensures ReadStart(data, at) == Some((f.header, f.hyper, end))
  {
    var n := |PutHeader(f.header)|;
    AtSplit(data, at, PutHeader(f.header), PutU32s(HyperWords(f.hyper)));
    HeaderRecovered(data, at, f.header);
    HyperRecovered(data, at + n, f.hyper);
    ReadStartIs(data, at, f.header, n, f.hyper);
  }

  lemma TableNames(ts: seq<Tensor>, rs: seq<Record>, data: seq<Byte>)
    requires Table(ts, rs, data)
    ensures Names(ts) == RecordNames(rs)
  {
  }

  /** The loader takes the feed-forward size from the record that the file means. */
  lemma FeedForwardRecoveredIff(ts: seq<Tensor>, rs: seq<Record>, data: seq<Byte>)
    requires Table(ts, rs, data)
    ensures FeedForward(NameMap(Names(ts)), ts).Some? <==> exists k: nat :: HasFeedForward(rs, k)
    ensures forall k: nat :: HasFeedForward(rs, k) ==> FeedForward(NameMap(Names(ts)), ts) == Some(rs[k].dims[1])
  {
    forall k: nat | HasFeedForward(rs, k)
      ensures FeedForward(NameMap(Names(ts)), ts) == Some(rs[k].dims[1])
    {
      FeedForwardFound(ts, rs, data, k);
    }
    if FeedForward(NameMap(Names(ts)), ts).Some? {
      FeedForwardMeant(ts, rs, data);
    }
  }

  lemma FeedForwardFound(ts: seq<Tensor>, rs: seq<Record>, data: seq<Byte>, k: nat)
    requires Table(ts, rs, data) && HasFeedForward(rs, k)
    ensures FeedForward(NameMap(Names(ts)), ts) == Some(rs[k].dims[1])
  {
    TableNames(ts, rs, data);
    LastIsMapped(rs, k);
    assert Locates(ts[k], rs[k], data);
  }

  lemma FeedForwardMeant(ts: seq<Tensor>, rs: seq<Record>, data: seq<Byte>)
    requires Table(ts, rs, data) && FeedForward(NameMap(Names(ts)), ts).Some?
    ensures exists k: nat :: HasFeedForward(rs, k)
  {
    TableNames(ts, rs, data);
    MappedIsLast(rs, Ascii(FEED_FORWARD));
    var k := NameMap(Names(ts))[Ascii(FEED_FORWARD)];
    assert Locates(ts[k], rs[k], data);
    assert HasFeedForward(rs, k);
  }

  lemma InTail<T>(s: seq<T>, j: nat, k: nat)
    requires j < |s| && k < |s|
    ensures j < k ==> s[k] in s[j + 1..]
  {
    if j < k {
      assert s[j + 1..][k - j - 1] == s[k];
    }
  }

  lemma LastIsMapped(rs: seq<Record>, k: nat)
    requires HasFeedForward(rs, k)
    ensures var m := NameMap(RecordNames(rs)); rs[k].name in m && m[rs[k].name] == k
  {
    var names := RecordNames(rs);
    var name := names[k];
    var m := NameMap(names);
    assert name in m;
    InTail(names, m[name], k);
  }

  lemma MappedIsLast(rs: seq<Record>, name: seq<Byte>)
    requires name in NameMap(RecordNames(rs))
    ensures var k := NameMap(RecordNames(rs))[name];
            k < |rs| && rs[k].name == name && forall i :: k < i < |rs| ==> rs[i].name != name
  {
    var names := RecordNames(rs);
    var k := NameMap(names)[name];
    forall i | k < i < |rs|
      ensures rs[i].name != name
    {
      InTail(names, k, i);
    }
  }

  lemma VocabRecovered(data: seq<Byte>, at: nat, f: File, quants: Quants, end: nat)
    requires FileOk(f, quants) && At(data, at, PutItems(f.vocab)) && end == at + |PutItems(f.vocab)|
    ensures ReadItems(data, at, f.hyper.nVocab, !f.header.format.GGML?) == Some((f.vocab, end))
  {
    ItemsRecovered(data, at, f.vocab, !f.header.format.GGML?, end);
  }

  /** Where the three parts of a written file are. */
  lemma FileParts(before: seq<Byte>, f: File) returns (items: nat, records: nat)
    ensures var data := before + PutFile(f, |before|);
            && At(data, |before|, PutStart(f.header, f.hyper))
            && items == |before| + |PutStart(f.header, f.hyper)|
            && At(data, items, PutItems(f.vocab))
            && records == items + |PutItems(f.vocab)|
            && RecordsLeft(data, records, f.records, f.header.format.GGJT?)
  {
    var at := |before|;
    var start := PutStart(f.header, f.hyper);
    var vocab := PutItems(f.vocab);
    items := at + |start|;
    records := items + |vocab|;
    var rest := PutRecords(f.records, records, f.header.format.GGJT?);
    ThreeParts(before, start, vocab, rest);
  }

  lemma ThreeParts(before: seq<Byte>, a: seq<Byte>, b: seq<Byte>, c: seq<Byte>)
    ensures var data := before + (a + (b + c)); var at := |before|;
            && At(data, at, a) && At(data, at + |a|, b) && At(data, at + |a| + |b|, c)
            && at + |a| + |b| + |c| == |data|
  {
    var data := before + (a + (b + c));
    assert At(data, |before|, a + (b + c));
    AtSplit(data, |before|, a, b + c);
    AtSplit(data, |before| + |a|, b, c);
  }

  lemma LoadIs(data: seq<Byte>, at: nat, quants: Quants, header: Header, hyper: Hyper, items: nat,
               vocab: seq<Item>, records: nat, ts: seq<Tensor>, end: nat)
    requires ReadStart(data, at) == Some((header, hyper, items))
    requires ReadItems(data, items, hyper.nVocab, !header.format.GGML?) == Some((vocab, records))
    requires ReadTensors(data, records, header.format.GGJT?, quants) == Some((ts, end))
    ensures Load(data, at, quants) == Finish(header, hyper, vocab, ts, end)
  {
  }

  /** Everything but the feed-forward size is read back from the written bytes, whatever comes before them. */
  lemma PartsRecovered(before: seq<Byte>, f: File, quants: Quants) returns (ts: seq<Tensor>)
    requires FileOk(f, quants)
    ensures var data := before + PutFile(f, |before|);
            && Table(ts, f.records, data)
            && Load(data, |before|, quants) == Finish(f.header, f.hyper, f.vocab, ts, |data|)
  {
    var data := before + PutFile(f, |before|);
    var items, records := FileParts(before, f);
    StartRecovered(data, |before|, f, quants, items);
    VocabRecovered(data, items, f, quants, records);
    ts := RecordsRecovered(data, records, f.records, f.header.format.GGJT?, quants);
    LoadIs(data, |before|, quants, f.header, f.hyper, items, f.vocab, records, ts, |data|);
  }

  /** Loading a written file succeeds exactly when it has a two-dimensional feed-forward tensor, and then
      recovers the header, the hyperparameters, the vocabulary and, for each record in order, its name,
      shape, type and the place of its data; the load ends at the end of the file. */
  lemma LoadUndoesWriteIff(before: seq<Byte>, f: File, quants: Quants)
    requires FileOk(f, quants)
    ensures var data := before + PutFile(f, |before|);
            var r := Load(data, |before|, quants);
            && (r.Some? <==> exists k: nat :: HasFeedForward(f.records, k))
            && (r.Some? ==>
                  && r.value.header == f.header && r.value.hyper == f.hyper && r.value.vocab == f.vocab
                  && r.value.end == |data| && Table(r.value.tensors, f.records, data)
                  && forall k: nat :: HasFeedForward(f.records, k) ==> r.value.nFf == f.records[k].dims[1])
  {
    var ts := PartsRecovered(before, f, quants);
    var data := before + PutFile(f, |before|);
    FeedForwardRecoveredIff(ts, f.records, data);
  }
}
