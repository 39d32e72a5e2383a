/** The loader of old GGML, GGMF and GGJT model files (convert_llama_ggml_to_gguf.py). Tensor data is not
    copied, only located; the table of quantization block sizes is a parameter. */
module GgmlLoader {
  import opened Wrappers
  import opened Arithmetic
  import opened Bytes

  datatype Format = GGML | GGMF | GGJT

  datatype Header = Header(format: Format, version: nat)

  datatype Hyper = Hyper(nVocab: nat, nEmbd: nat, nMult: nat, nHead: nat, nLayer: nat, nRot: nat, ftype: nat)

  /** A vocabulary entry; the score keeps its four bytes, or none when the format has no scores. */
  datatype Item = Item(text: seq<Byte>, score: seq<Byte>)

  datatype Tensor = Tensor(name: seq<Byte>, dims: seq<nat>, dtype: nat, start: nat, len: nat)

  /** Block size and bytes per block. */
  datatype Quant = Unknown | Quant(block: Positive, size: nat)

  type Positive = n: nat | n > 0 witness 1

  type Quants = nat -> Quant

  // ----- reading

  /** A Python slice: cut to the data. */
  function Slice(data: seq<Byte>, from: nat, to: nat): seq<Byte>
    requires from <= to
  {
    var n := |data|;
    data[if from <= n then from else n..if to <= n then to else n]
  }

  /** Four bytes, the least significant first. */
  function U32(b0: int, b1: int, b2: int, b3: int): int {
    b0 + b1 * 0x100 + b2 * 0x1_0000 + b3 * 0x100_0000
  }

  function WordAt(data: seq<Byte>, at: nat): nat
    requires at + 4 <= |data|
  {
    U32(data[at], data[at + 1], data[at + 2], data[at + 3])
  }

  /** A struct.unpack of that many words; it raises when the data is cut short. */
  function WordsAt(data: seq<Byte>, at: nat, n: nat): Option<seq<nat>> {
    if at + 4 * n > |data| then None
    else Some(seq(n, i requires 0 <= i < n => WordAt(data, at + 4 * i)))
  }

  const MAGIC_GGUF: seq<Byte> := [0x47, 0x47, 0x55, 0x46]
  const MAGIC_GGML: seq<Byte> := [0x6C, 0x6D, 0x67, 0x67]
  const MAGIC_GGMF: seq<Byte> := [0x66, 0x6D, 0x67, 0x67]
  const MAGIC_GGJT: seq<Byte> := [0x74, 0x6A, 0x67, 0x67]

  /** The header and its length. */
  function ReadHeader(data: seq<Byte>, at: nat): Option<(Header, nat)> {
    var magic := Slice(data, at, at + 4);
    if magic == MAGIC_GGUF then None
    else if magic == MAGIC_GGML then Some((Header(GGML, 1), 4))
    else
      if at + 8 > |data| then None
      else
        var version := WordAt(data, at + 4);
        if magic == MAGIC_GGMF then
          if version != 1 then None else Some((Header(GGMF, version), 8))
        else if magic == MAGIC_GGJT then
          if version < 1 || version > 3 then None else Some((Header(GGJT, version), 8))
        else None
  }

  predicate KnownFtype(f: nat) {
    f <= 4 || 7 <= f <= 18
  }

  /** Quantized files are convertible only from the format version that fixed their layout. */
  predicate Convertible(h: Header, ftype: nat) {
    if !h.format.GGJT? || h.version < 2 then ftype == 0 || ftype == 1
    else if h.version == 2 then ftype !in {2, 3, 4, 7}
    else true
  }

  function ReadHyper(data: seq<Byte>, at: nat): Option<Hyper> {
    var v :- WordsAt(data, at, 7);
    if !KnownFtype(v[6]) then None
    else Some(Hyper(v[0], v[1], v[2], v[3], v[4], v[5], v[6]))
  }

  /** An entry and the offset after it. */
  function ReadItem(data: seq<Byte>, at: nat, scored: bool): Option<(Item, nat)> {
    if at + 4 > |data| || WordAt(data, at) >= 4096 then None
    else
      var len := WordAt(data, at);
      var text := Slice(data, at + 4, at + 4 + len);
      var end := at + 4 + len;
      if !scored then Some((Item(text, []), end))
      else if end + 4 > |data| then None
      else Some((Item(text, data[end..end + 4]), end + 4))
  }

  function ReadItems(data: seq<Byte>, at: nat, n: nat, scored: bool): Option<(seq<Item>, nat)>
    decreases n
  {
    if n == 0 then Some(([], at))
    else
      var first :- ReadItem(data, at, scored);
      var rest :- ReadItems(data, first.1, n - 1, scored);
      Some(([first.0] + rest.0, rest.1))
  }

  function Align(at: nat): (r: nat)
    ensures at <= r < at + 32 && r % 32 == 0
    ensures at % 32 == 0 ==> r == at
  {
    (at + 31) / 32 * 32
  }

  function Elements(dims: seq<nat>): nat {
    if dims == [] then 1 else dims[0] * Elements(dims[1..])
  }

  /** The bytes of a tensor's data: whole blocks, rounded down. */
  function DataBytes(dims: seq<nat>, q: Quant): nat {
    if q.Unknown? then 0
    else
      var total: nat := Elements(dims) * q.size;
      DivNatural(total, q.block);
      total / q.block
  }

  datatype Shape = Shape(name: seq<Byte>, dims: seq<nat>, dtype: nat)

  /** The described part of a tensor record and the offset after it. */
  function ReadShape(data: seq<Byte>, at: nat, quants: Quants): (r: Option<(Shape, nat)>)
    ensures r.Some? ==> r.value.1 >= at + 12
  {
    var v :- WordsAt(data, at, 3);
    if v[0] > 4 || v[1] >= 4096 || quants(v[2]).Unknown? then None
    else
      var dims :- WordsAt(data, at + 12, v[0]);
      var nameAt := at + 12 + 4 * v[0];
      Some((Shape(Slice(data, nameAt, nameAt + v[1]), dims, v[2]), nameAt + v[1]))
  }

  function DataStart(end: nat, padded: bool): (start: nat)
    ensures end <= start < end + 32 && (padded ==> start % 32 == 0) && (!padded ==> start == end)
  {
    if padded then Align(end) else end
  }

  /** A tensor record and the offset after its data. */
  function ReadTensor(data: seq<Byte>, at: nat, padded: bool, quants: Quants): (r: Option<(Tensor, nat)>)
    ensures r.Some? ==> r.value.1 >= at + 12
    ensures r.Some? ==> at + 12 <= r.value.0.start && r.value.0.start + r.value.0.len == r.value.1
    ensures r.Some? && padded ==> r.value.0.start % 32 == 0
  {
    var shape :- ReadShape(data, at, quants);
    var start := DataStart(shape.1, padded);
    var len := DataBytes(shape.0.dims, quants(shape.0.dtype));
    Some((Tensor(shape.0.name, shape.0.dims, shape.0.dtype, start, len), start + len))
  }

  function ReadTensors(data: seq<Byte>, at: nat, padded: bool, quants: Quants): Option<(seq<Tensor>, nat)>
    decreases |data| - at
  {
    if at >= |data| then Some(([], at))
    else
      var first :- ReadTensor(data, at, padded, quants);
      var rest :- ReadTensors(data, first.1, padded, quants);
      Some(([first.0] + rest.0, rest.1))
  }

  /** The last index of each name. */
  function NameMap(names: seq<seq<Byte>>): (m: map<seq<Byte>, nat>)
    ensures forall name :: name in m ==> m[name] < |names| && names[m[name]] == name && name !in names[m[name] + 1..]
    ensures forall name :: name in m <==> name in names
  {
    if names == [] then map[]
    else
      var n := |names| - 1;
      assert names == names[..n] + [names[n]];
      assert forall k :: 0 <= k <= n ==> names[k..] == names[..n][k..] + [names[n]];
      NameMap(names[..n])[names[n] := n]
  }

  function Names(ts: seq<Tensor>): (names: seq<seq<Byte>>) {
    seq(|ts|, i requires 0 <= i < |ts| => ts[i].name)
  }

  const FEED_FORWARD := "layers.0.feed_forward.w1.weight"

  function Ascii(text: string): (b: seq<Byte>)
  {
    seq(|text|, i requires 0 <= i < |text| => text[i] as int % 256)
  }

  /** The second extent of the last tensor with the feed-forward name. */
  function FeedForward(byName: map<seq<Byte>, nat>, ts: seq<Tensor>): Option<nat> {
    var name := Ascii(FEED_FORWARD);
    if name !in byName || byName[name] >= |ts| || |ts[byName[name]].dims| < 2 then None
    else Some(ts[byName[name]].dims[1])
  }

  datatype Model = Model(header: Header, hyper: Hyper, nFf: nat, vocab: seq<Item>, tensors: seq<Tensor>,
                         byName: map<seq<Byte>, nat>, end: nat)

  /** Header, hyperparameters and the offset after them. */
  function ReadStart(data: seq<Byte>, at: nat): Option<(Header, Hyper, nat)> {
    var h :- ReadHeader(data, at);
    var hyper :- ReadHyper(data, at + h.1);
    if Convertible(h.0, hyper.ftype) then Some((h.0, hyper, at + h.1 + 28)) else None
  }

  function Load(data: seq<Byte>, at: nat, quants: Quants): Option<Model> {
    var start :- ReadStart(data, at);
    var vocab :- ReadItems(data, start.2, start.1.nVocab, !start.0.format.GGML?);
    var tensors :- ReadTensors(data, vocab.1, start.0.format.GGJT?, quants);
    Finish(start.0, start.1, vocab.0, tensors.0, tensors.1)
  }

  function Finish(header: Header, hyper: Hyper, vocab: seq<Item>, ts: seq<Tensor>, end: nat): Option<Model> {
    var byName := NameMap(Names(ts));
    var nFf :- FeedForward(byName, ts);
    Some(Model(header, hyper, nFf, vocab, ts, byName, end))
  }

  // ----- what every loaded file satisfies

  /** Data ranges in file order, none overlapping the next, and aligned where the format pads. */
  predicate Laid(ts: seq<Tensor>, from: nat, end: nat, padded: bool)
    decreases |ts|
  {
    if ts == [] then from == end
    else
      && from + 12 <= ts[0].start
      && (padded ==> ts[0].start % 32 == 0)
      && Laid(ts[1..], ts[0].start + ts[0].len, end, padded)
  }

  lemma LaidCons(t: Tensor, rest: seq<Tensor>, from: nat, end: nat, padded: bool)
    requires from + 12 <= t.start && (padded ==> t.start % 32 == 0) && Laid(rest, t.start + t.len, end, padded)
    ensures Laid([t] + rest, from, end, padded)
  {
    assert ([t] + rest)[1..] == rest;
  }

  ghost predicate LaidFrom(data: seq<Byte>, at: nat, padded: bool, quants: Quants) {
    var r := ReadTensors(data, at, padded, quants);
    r.Some? ==> Laid(r.value.0, at, r.value.1, padded)
  }

  lemma LaidStep(data: seq<Byte>, at: nat, padded: bool, quants: Quants, t: Tensor, next: nat)
    requires at < |data| && ReadTensor(data, at, padded, quants) == Some((t, next))
    requires LaidFrom(data, next, padded, quants)
    ensures LaidFrom(data, at, padded, quants)
  {
    TensorsCons(data, at, padded, quants);
    var rest := ReadTensors(data, next, padded, quants);
    if rest.Some? {
      LaidCons(t, rest.value.0, at, rest.value.1, padded);
    }
  }

  lemma {:induction false} TensorsAreLaid(data: seq<Byte>, at: nat, padded: bool, quants: Quants)
    ensures LaidFrom(data, at, padded, quants)
    decreases |data| - at
  {
    if at < |data| {
      var first := ReadTensor(data, at, padded, quants);
      if first.Some? {
        TensorsAreLaid(data, first.value.1, padded, quants);
        LaidStep(data, at, padded, quants, first.value.0, first.value.1);
      }
    }
  }

  lemma {:induction false} LaidAfter(ts: seq<Tensor>, from: nat, end: nat, padded: bool, j: nat)
    requires Laid(ts, from, end, padded) && j < |ts|
    ensures from + 12 <= ts[j].start && ts[j].start + ts[j].len <= end && (padded ==> ts[j].start % 32 == 0)
    decreases |ts|
  {
    if j == 0 {
      LaidEnd(ts[1..], ts[0].start + ts[0].len, end, padded);
    } else {
      LaidAfter(ts[1..], ts[0].start + ts[0].len, end, padded, j - 1);
    }
  }

  lemma {:induction false} LaidEnd(ts: seq<Tensor>, from: nat, end: nat, padded: bool)
    requires Laid(ts, from, end, padded)
    ensures from <= end
    decreases |ts|
  {
    if ts != [] {
      LaidEnd(ts[1..], ts[0].start + ts[0].len, end, padded);
    }
  }

  lemma {:induction false} LaidApart(ts: seq<Tensor>, from: nat, end: nat, padded: bool, i: nat, j: nat)
    requires Laid(ts, from, end, padded) && i < j < |ts|
    ensures ts[i].start + ts[i].len + 12 <= ts[j].start
    decreases |ts|
  {
    if i == 0 {
      LaidAfter(ts[1..], ts[0].start + ts[0].len, end, padded, j - 1);
    } else {
      LaidApart(ts[1..], ts[0].start + ts[0].len, end, padded, i - 1, j - 1);
    }
  }

  /** In every file that loads, tensor data ranges are in order, disjoint with room for a record header
      between them, and in GGJT files start at multiples of 32. */
  lemma LoadedTensorsAreApart(data: seq<Byte>, at: nat, quants: Quants, i: nat, j: nat)
    requires Load(data, at, quants).Some?
    requires var ts := Load(data, at, quants).value.tensors; i < j < |ts|
    ensures var m := Load(data, at, quants).value;
            && m.tensors[i].start + m.tensors[i].len + 12 <= m.tensors[j].start
            && m.tensors[j].start + m.tensors[j].len <= m.end
            && (m.header.format.GGJT? ==> m.tensors[i].start % 32 == 0 && m.tensors[j].start % 32 == 0)
  {
    var m := Load(data, at, quants).value;
    var from := LoadedFrom(data, at, quants);
    LaidApart(m.tensors, from, m.end, m.header.format.GGJT?, i, j);
    LaidAfter(m.tensors, from, m.end, m.header.format.GGJT?, i);
    LaidAfter(m.tensors, from, m.end, m.header.format.GGJT?, j);
  }

  /** The tensors of a loaded file are laid out from some offset on. */
  lemma LoadedFrom(data: seq<Byte>, at: nat, quants: Quants) returns (from: nat)
    requires Load(data, at, quants).Some?
    ensures var m := Load(data, at, quants).value; Laid(m.tensors, from, m.end, m.header.format.GGJT?)
  {
    var start := ReadStart(data, at).value;
    from := ReadItems(data, start.2, start.1.nVocab, !start.0.format.GGML?).value.1;
    TensorsAreLaid(data, from, start.0.format.GGJT?, quants);
  }

  // ----- the loops as written

  method LoadVocab(data: seq<Byte>, at: nat, n: nat, scored: bool) returns (r: Option<(seq<Item>, nat)>)
    ensures r == ReadItems(data, at, n, scored)
  {
    var items: seq<Item> := [];
    var offset := at;
    ItemsBegin(data, at, n, scored);
    for i := 0 to n
      invariant ItemsPartWay(data, at, n, scored, items, offset, n - i)
    {
      var item := ReadItem(data, offset, scored);
      if item.None? {
        return None;
      }
      ItemsStep(data, at, n, scored, items, offset, n - i);
      items := items + [item.value.0];
      offset := item.value.1;
    }
    assert items + [] == items;
    r := Some((items, offset));
  }

  lemma ItemsBegin(data: seq<Byte>, at: nat, n: nat, scored: bool)
    ensures ItemsPartWay(data, at, n, scored, [], at, n)
  {
    var all := ReadItems(data, at, n, scored);
    if all.Some? {
      assert [] + all.value.0 == all.value.0;
    }
  }

  ghost predicate ItemsPartWay(data: seq<Byte>, at: nat, n: nat, scored: bool, items: seq<Item>, offset: nat, left: nat) {
    match ReadItems(data, offset, left, scored)
    case None => ReadItems(data, at, n, scored).None?
    case Some(rest) => ReadItems(data, at, n, scored) == Some((items + rest.0, rest.1))
  }

  lemma ItemsStep(data: seq<Byte>, at: nat, n: nat, scored: bool, items: seq<Item>, offset: nat, left: nat)
    requires left > 0 && ItemsPartWay(data, at, n, scored, items, offset, left) && ReadItem(data, offset, scored).Some?
    ensures var item := ReadItem(data, offset, scored).value;
            ItemsPartWay(data, at, n, scored, items + [item.0], item.1, left - 1)
  {
    var item := ReadItem(data, offset, scored).value;
    var rest := ReadItems(data, item.1, left - 1, scored);
    if rest.Some? {
      OneMore(items, item.0, rest.value.0);
    }
  }

  ghost predicate TensorsPartWay(data: seq<Byte>, at: nat, padded: bool, quants: Quants, ts: seq<Tensor>, offset: nat) {
    match ReadTensors(data, offset, padded, quants)
    case None => ReadTensors(data, at, padded, quants).None?
    case Some(rest) => ReadTensors(data, at, padded, quants) == Some((ts + rest.0, rest.1))
  }

  lemma TensorsStep(data: seq<Byte>, at: nat, padded: bool, quants: Quants, ts: seq<Tensor>, offset: nat)
    requires offset < |data| && TensorsPartWay(data, at, padded, quants, ts, offset)
    requires ReadTensor(data, offset, padded, quants).Some?
    ensures var t := ReadTensor(data, offset, padded, quants).value;
            TensorsPartWay(data, at, padded, quants, ts + [t.0], t.1)
  {
    var t := ReadTensor(data, offset, padded, quants).value;
    TensorsCons(data, offset, padded, quants);
    var rest := ReadTensors(data, t.1, padded, quants);
    if rest.Some? {
      OneMore(ts, t.0, rest.value.0);
    }
  }

  lemma TensorsCons(data: seq<Byte>, at: nat, padded: bool, quants: Quants)
    requires at < |data| && ReadTensor(data, at, padded, quants).Some?
    ensures var t := ReadTensor(data, at, padded, quants).value;
            var rest := ReadTensors(data, t.1, padded, quants);
            ReadTensors(data, at, padded, quants)
            == if rest.None? then None else Some(([t.0] + rest.value.0, rest.value.1))
  {
  }

  lemma OneMore<T>(a: seq<T>, x: T, b: seq<T>)
    ensures a + ([x] + b) == a + [x] + b
  {
  }

  lemma TensorsBegin(data: seq<Byte>, at: nat, padded: bool, quants: Quants)
    ensures TensorsPartWay(data, at, padded, quants, [], at)
  {
    var all := ReadTensors(data, at, padded, quants);
    if all.Some? {
      assert [] + all.value.0 == all.value.0;
    }
  }

  lemma NameMapAppend(ts: seq<Tensor>, t: Tensor)
    ensures NameMap(Names(ts + [t])) == NameMap(Names(ts))[t.name := |ts|]
  {
    var names := Names(ts + [t]);
    assert names[..|ts|] == Names(ts);
  }

  /** The scan loop; it ends because each record takes at least twelve bytes. */
  method LoadTensors(data: seq<Byte>, at: nat, padded: bool, quants: Quants)
    returns (r: Option<(seq<Tensor>, nat)>, byName: map<seq<Byte>, nat>)
    ensures r == ReadTensors(data, at, padded, quants)
    ensures r.Some? ==> byName == NameMap(Names(r.value.0))
  {
    var ts: seq<Tensor> := [];
    byName := map[];
    var offset := at;
    TensorsBegin(data, at, padded, quants);
    while offset < |data|
      invariant TensorsPartWay(data, at, padded, quants, ts, offset) && byName == NameMap(Names(ts))
      decreases |data| - offset
    {
      var t := ReadTensor(data, offset, padded, quants);
      if t.None? {
        return None, byName;
      }
      TensorsStep(data, at, padded, quants, ts, offset);
      NameMapAppend(ts, t.value.0);
      byName := byName[t.value.0.name := |ts|];
      ts := ts + [t.value.0];
      offset := t.value.1;
    }
    assert ts + [] == ts;
    r := Some((ts, offset));
  }

  /** The loader as written. */
  method LoadModel(data: seq<Byte>, at: nat, quants: Quants) returns (r: Option<Model>)
    ensures r == Load(data, at, quants)
  {
    var start :- ReadStart(data, at);
    var vocab := LoadVocab(data, start.2, start.1.nVocab, !start.0.format.GGML?);
    if vocab.None? {
      return None;
    }
    var tensors, byName := LoadTensors(data, vocab.value.1, start.0.format.GGJT?, quants);
    if tensors.None? {
      return None;
    }
    var nFf :- FeedForward(byName, tensors.value.0);
    r := Some(Model(start.0, start.1, nFf, vocab.value.0, tensors.value.0, byName, tensors.value.1));
  }
}
