// The SDES part of RTCP packets (section 6.5 and Appendix A.4 of RFC 3550): writing a chunk into a
// buffer and reading the chunks of a packet back.

module Sdes {

  import opened Bytes
  import opened Sequences

  const MAX_SDES: nat := 255
  const SDES_END: Byte := 0

  datatype Item = Item(kind: Byte, text: seq<Byte>)

  datatype Chunk = Chunk(source: nat, items: seq<Item>)

  // ---- octets of a chunk ----

  function Cut(text: seq<Byte>): (t: seq<Byte>) {
    if |text| > MAX_SDES then text[..MAX_SDES] else text
  }

  /** A text of at most 255 octets stays whole, and of a longer one the first 255 stay. */
  lemma CutAt255(text: seq<Byte>)
    ensures Cut(text) <= text && |Cut(text)| == if |text| < 255 then |text| else 255
  {
  }

  function CutItems(items: seq<Item>): (r: seq<Item>)
    ensures |r| == |items|
  {
    if items == [] then [] else [Item(items[0].kind, Cut(items[0].text))] + CutItems(items[1..])
  }

  function CutChunks(chunks: seq<Chunk>): (r: seq<Chunk>)
    ensures |r| == |chunks|
  {
    if chunks == [] then [] else [Chunk(chunks[0].source, CutItems(chunks[0].items))] + CutChunks(chunks[1..])
  }

  function Low(n: nat): Byte {
    n % 256
  }

  /** The source identifier as it lies in memory. */
  function SourceOctets(source: nat): (r: seq<Byte>)
    ensures |r| == 4
  {
    [Low(source), Low(source / 256), Low(source / 65536), Low(source / 16777216)]
  }

  function SourceOf(octets: seq<Byte>): nat
    requires |octets| == 4
  {
    octets[0] as int + 256 * octets[1] as int + 65536 * octets[2] as int + 16777216 * octets[3] as int
  }

  function ItemOctets(item: Item): (r: seq<Byte>)
    ensures |r| == 2 + |Cut(item.text)|
  {
    [item.kind, |Cut(item.text)|] + Cut(item.text)
  }

  function ItemsOctets(items: seq<Item>): seq<Byte> {
    if items == [] then [] else ItemOctets(items[0]) + ItemsOctets(items[1..])
  }

  function Zeros(n: nat): (r: seq<Byte>)
    ensures |r| == n && forall i :: 0 <= i < n ==> r[i] == SDES_END
  {
    seq(n, _ => SDES_END)
  }

  function Body(chunk: Chunk): seq<Byte> {
    SourceOctets(chunk.source) + ItemsOctets(chunk.items)
  }

  /** At least one end marker, up to the next word boundary. */
  function ChunkOctets(chunk: Chunk): seq<Byte> {
    Body(chunk) + Zeros(4 - |Body(chunk)| % 4)
  }

  function ChunksOctets(chunks: seq<Chunk>): seq<Byte> {
    if chunks == [] then [] else ChunkOctets(chunks[0]) + ChunksOctets(chunks[1..])
  }

  lemma SourceRoundTrip(source: nat)
    requires source < 0x1_0000_0000
    ensures SourceOf(SourceOctets(source)) == source
  {
    var a, b, c := source / 256, source / 65536, source / 16777216;
    assert a / 256 == b && b / 256 == c && c < 256;
    assert source == 256 * a + source % 256 && a == 256 * b + a % 256 && b == 256 * c + b % 256;
  }

  // ---- the writer, on the caller's buffer ----

  /** buffer with `octets` laid over it from position `at` on. */
  function Laid(buffer: seq<Byte>, at: nat, octets: seq<Byte>): (r: seq<Byte>)
    requires at + |octets| <= |buffer|
    ensures |r| == |buffer|
  {
    buffer[..at] + octets + buffer[at + |octets|..]
  }

  lemma LaidOn(buffer: seq<Byte>, at: nat, first: seq<Byte>, second: seq<Byte>)
    requires at + |first| + |second| <= |buffer|
    ensures Laid(Laid(buffer, at, first), at + |first|, second) == Laid(buffer, at, first + second)
  {
  }

  method Copy(b: array<Byte>, at: nat, octets: seq<Byte>)
    requires at + |octets| <= b.Length
    modifies b
    ensures b[..] == Laid(old(b[..]), at, octets)
  {
    forall k | 0 <= k < |octets| {
      b[at + k] := octets[k];
    }
  }

  /** The three argument arrays of rtp_write_sdes; of a value only the octets that are written have to
      be there. */
  predicate Describes(kinds: seq<Byte>, values: seq<seq<Byte>>, lengths: seq<nat>) {
    && |kinds| == |values| == |lengths|
    && forall i :: 0 <= i < |lengths| ==> Readable(values[i], lengths[i])
  }

  predicate Readable(value: seq<Byte>, length: nat) {
    length <= |value| || MAX_SDES <= |value|
  }

  function TextOf(value: seq<Byte>, length: nat): seq<Byte> {
    if length <= |value| then value[..length] else value
  }

  /** The items that the arrays describe. */
  function Described(kinds: seq<Byte>, values: seq<seq<Byte>>, lengths: seq<nat>): (r: seq<Item>)
    requires Describes(kinds, values, lengths)
    ensures |r| == |kinds|
    ensures forall i :: 0 <= i < |r| ==> r[i] == Item(kinds[i], TextOf(values[i], lengths[i]))
  {
    seq(|kinds|, i requires 0 <= i < |kinds| => Item(kinds[i], TextOf(values[i], lengths[i])))
  }

  lemma TextCut(value: seq<Byte>, length: nat)
    requires Readable(value, length)
    ensures var n := if length > MAX_SDES then MAX_SDES else length;
            n <= |value| && value[..n] == Cut(TextOf(value, length))
  {
  }

  lemma {:induction false} ItemsOctetsSnoc(items: seq<Item>, last: Item)
    ensures ItemsOctets(items + [last]) == ItemsOctets(items) + ItemOctets(last)
  {
    if items == [] {
      assert items + [last] == [last];
      assert ItemsOctets([]) == [];
    } else {
      ItemsOctetsSnoc(items[1..], last);
      assert (items + [last])[1..] == items[1..] + [last];
      Regroup(ItemOctets(items[0]), ItemsOctets(items[1..]), ItemOctets(last));
    }
  }

  lemma {:induction false} ItemsOctetsLength(items: seq<Item>, n: nat)
    requires n <= |items|
    ensures |ItemsOctets(items[..n])| <= |ItemsOctets(items)|
  {
    if n > 0 {
      ItemsOctetsLength(items[1..], n - 1);
      assert items[..n][1..] == items[1..][..n - 1];
    }
  }

  function Prefix(source: nat, items: seq<Item>, i: nat): seq<Byte>
    requires i <= |items|
  {
    SourceOctets(source) + ItemsOctets(items[..i])
  }

  lemma PrefixOn(source: nat, items: seq<Item>, i: nat)
    requires i < |items|
    ensures Prefix(source, items, i + 1) == Prefix(source, items, i) + ItemOctets(items[i])
    ensures |Prefix(source, items, i + 1)| <= |Body(Chunk(source, items))|
  {
    ItemsOctetsSnoc(items[..i], items[i]);
    assert items[..i + 1] == items[..i] + [items[i]];
    ItemsOctetsLength(items, i + 1);
  }

  lemma PrefixEnds(source: nat, items: seq<Item>)
    ensures Prefix(source, items, 0) == SourceOctets(source)
    ensures Prefix(source, items, |items|) == Body(Chunk(source, items))
  {
    assert items[..|items|] == items;
  }

  method PutItem(b: array<Byte>, rsp: nat, kind: Byte, text: seq<Byte>)
    requires |text| <= MAX_SDES && rsp + 2 + |text| <= b.Length
    modifies b
    ensures b[..] == Laid(old(b[..]), rsp, ItemOctets(Item(kind, text)))
  {
    ghost var before := b[..];
    b[rsp] := kind;
    b[rsp + 1] := |text|;
    assert b[..] == Laid(before, rsp, [kind, |text|]);
    Copy(b, rsp + 2, text);
    LaidOn(before, rsp, [kind, |text|], text);
  }

  /** One turn of the writer's loop: item i goes behind those before it. */
  method AppendItem(b: array<Byte>, ghost was: seq<Byte>, ghost at: nat, ghost source: nat, ghost items: seq<Item>,
                    ghost i: nat, rsp: nat, kind: Byte, value: seq<Byte>, length: nat) returns (next: nat)
    requires i < |items| && Readable(value, length) && items[i] == Item(kind, TextOf(value, length))
    requires |was| == b.Length && rsp == at + |Prefix(source, items, i)| <= b.Length
    requires at + |Body(Chunk(source, items))| <= b.Length
    requires b[..] == Laid(was, at, Prefix(source, items, i))
    modifies b
    ensures next == at + |Prefix(source, items, i + 1)| <= b.Length
    ensures next <= at + |Body(Chunk(source, items))|
    ensures b[..] == Laid(was, at, Prefix(source, items, i + 1))
  {
    PrefixOn(source, items, i);
    var len := length;
    if len > MAX_SDES {
      len := MAX_SDES;
    }
    TextCut(value, length);
    PutItem(b, rsp, kind, value[..len]);
    LaidOn(was, at, Prefix(source, items, i), ItemOctets(items[i]));
    next := rsp + 2 + len;
  }

  /** The source identifier and all items. */
  method WriteBody(b: array<Byte>, at: nat, source: nat, kinds: seq<Byte>, values: seq<seq<Byte>>, lengths: seq<nat>)
    returns (rsp: nat)
    requires Describes(kinds, values, lengths)
    requires at + |Body(Chunk(source, Described(kinds, values, lengths)))| <= b.Length
    modifies b
    ensures rsp == at + |Body(Chunk(source, Described(kinds, values, lengths)))|
    ensures b[..] == Laid(old(b[..]), at, Body(Chunk(source, Described(kinds, values, lengths))))
  {
    ghost var was, items := b[..], Described(kinds, values, lengths);
    PrefixEnds(source, items);
    Copy(b, at, SourceOctets(source));
    rsp := at + 4;
    var i := 0;
    while i < |kinds|
      invariant 0 <= i <= |kinds|
      invariant rsp == at + |Prefix(source, items, i)| <= at + |Body(Chunk(source, items))|
      invariant b[..] == Laid(was, at, Prefix(source, items, i))
    {
      rsp := AppendItem(b, was, at, source, items, i, rsp, kinds[i], values[i], lengths[i]);
      i := i + 1;
    }
  }

  method WriteSdes(b: array<Byte>, at: nat, source: nat, kinds: seq<Byte>, values: seq<seq<Byte>>, lengths: seq<nat>)
    returns (end: nat)
    requires source < 0x1_0000_0000
    requires Describes(kinds, values, lengths)
    requires at + |ChunkOctets(Chunk(source, Described(kinds, values, lengths)))| <= b.Length
    modifies b
    ensures var octets := ChunkOctets(Chunk(source, Described(kinds, values, lengths)));
            end == at + |octets| && b[..] == Laid(old(b[..]), at, octets)
  {
    ghost var was, body := b[..], Body(Chunk(source, Described(kinds, values, lengths)));
    var rsp := WriteBody(b, at, source, kinds, values, lengths);
    end := Terminate(b, was, at, body, rsp);
  }

  /** One end marker or more behind the items, up to the next word boundary of the chunk. */
  method Terminate(b: array<Byte>, ghost was: seq<Byte>, at: nat, ghost done: seq<Byte>, rsp: nat) returns (end: nat)
    requires |was| == b.Length && rsp == at + |done| && at + |done| + (4 - |done| % 4) <= b.Length
    requires b[..] == Laid(was, at, done)
    modifies b
    ensures end == at + |done| + (4 - |done| % 4)
    ensures b[..] == Laid(was, at, done + Zeros(4 - |done| % 4))
  {
    var pad := 4 - (rsp - at) % 4;
    Copy(b, rsp, Zeros(pad));
    LaidOn(was, at, done, Zeros(pad));
    end := rsp + pad;
  }

  // ---- the reader ----

  function ByteAt(p: seq<Byte>, i: nat): Byte {
    if i < |p| then p[i] else 0
  }

  /** The items from rsp on, and where the reader stops: at an end marker, or at the first place at or
      behind `end` to which an item leads. */
  function ReadItems(p: seq<Byte>, rsp: nat, end: nat): (r: (seq<Item>, nat))
    requires rsp < end <= |p|
    ensures rsp <= r.1
    decreases end - rsp
  {
    if p[rsp] == SDES_END then ([], rsp)
    else
      var next := rsp + ByteAt(p, rsp + 1) as nat + 2;
      if next >= end then ([], next)
      else
        var (rest, stop) := ReadItems(p, next, end);
        ([Item(p[rsp], p[rsp + 2..next])] + rest, stop)
  }

  /** The chunks from sd on, at most `count` of them, and how many are missing. */
  function ReadChunks(p: seq<Byte>, sd: nat, end: nat, count: nat): (seq<Chunk>, nat)
    requires end <= |p|
    decreases count
  {
    if count == 0 || sd + 4 >= end then ([], count)
    else
      var (items, rsp) := ReadItems(p, sd + 4, end);
      var (rest, missing) := ReadChunks(p, sd + ((rsp - sd) / 4 + 1) * 4, end, count - 1);
      ([Chunk(SourceOf(p[sd..sd + 4]), items)] + rest, missing)
  }

  /** A result whose first part is continued from `done`. */
  function Continue<T>(done: seq<T>, r: (seq<T>, nat)): (seq<T>, nat) {
    (done + r.0, r.1)
  }

  lemma ContinueFromNone<T>(r: (seq<T>, nat))
    ensures Continue([], r) == r
  {
    assert [] + r.0 == r.0;
  }

  lemma ContinueOn<T>(done: seq<T>, x: T, r: (seq<T>, nat))
    ensures Continue(done, ([x] + r.0, r.1)) == Continue(done + [x], r)
  {
    assert done + ([x] + r.0) == done + [x] + r.0;
  }

  predicate IsChunkAt(p: seq<Byte>, sd: nat, end: nat, chunk: Chunk, next: nat)
    requires sd + 4 < end <= |p|
  {
    var (items, rsp) := ReadItems(p, sd + 4, end);
    chunk == Chunk(SourceOf(p[sd..sd + 4]), items) && next == sd + ((rsp - sd) / 4 + 1) * 4
  }

  lemma OneChunk(p: seq<Byte>, sd: nat, end: nat, count: nat, chunk: Chunk, next: nat, done: seq<Chunk>)
    requires count > 0 && sd + 4 < end <= |p| && IsChunkAt(p, sd, end, chunk, next)
    ensures Continue(done, ReadChunks(p, sd, end, count)) ==
            Continue(done + [chunk], ReadChunks(p, next, end, count - 1))
  {
    ContinueOn(done, chunk, ReadChunks(p, next, end, count - 1));
  }

  /** The members that rtp_read_sdes finds and the items it hands to each, in order; `missing` counts
      the chunks announced but not there. The packet lies at the start of p; its header announces
      `count` chunks and a length of `length` words behind the first. */
  method ReadSdes(p: array<Byte>, count: nat, length: nat) returns (chunks: seq<Chunk>, missing: nat)
    requires 4 * (length + 1) <= p.Length
    ensures (chunks, missing) == ReadChunks(p[..], 4, 4 * (length + 1), count)
  {
    ghost var q := p[..];
    var end := 4 * (length + 1);
    var sd: nat := 4;
    chunks, missing := [], count;
    ContinueFromNone(ReadChunks(q, sd, end, missing));
    while missing > 0
      invariant p[..] == q
      invariant ReadChunks(q, 4, end, count) == Continue(chunks, ReadChunks(q, sd, end, missing))
    {
      if sd + 4 >= end {
        break;
      }
      var chunk, next := ReadChunkAt(p, sd, end);
      OneChunk(q, sd, end, missing, chunk, next, chunks);
      chunks := chunks + [chunk];
      sd := next;
      missing := missing - 1;
    }
    assert chunks + [] == chunks;
  }

  /** One turn of the loop: the chunk at sd, and where the next one is. */
  method ReadChunkAt(p: array<Byte>, sd: nat, end: nat) returns (chunk: Chunk, next: nat)
    requires sd + 4 < end <= p.Length
    ensures IsChunkAt(p[..], sd, end, chunk, next)
  {
    var items, rsp := ReadItemsOf(p, sd + 4, end);
    chunk := Chunk(SourceOf(p[sd..sd + 4]), items);
    assert p[..][sd..sd + 4] == p[sd..sd + 4];
    next := sd + ((rsp - sd) / 4 + 1) * 4;
  }

  method ReadItemsOf(p: array<Byte>, start: nat, end: nat) returns (items: seq<Item>, rsp: nat)
    requires start < end <= p.Length
    ensures (items, rsp) == ReadItems(p[..], start, end)
    ensures start <= rsp
  {
    ghost var q := p[..];
    items, rsp := [], start;
    ContinueFromNone(ReadItems(q, start, end));
    while p[rsp] != SDES_END
      invariant start <= rsp < end && p[..] == q
      invariant ReadItems(q, start, end) == Continue(items, ReadItems(q, rsp, end))
      decreases end - rsp
    {
      // a malformed packet may end here: the length is then read behind it, but does not matter
      var length := if rsp + 1 < p.Length then p[rsp + 1] else 0;
      var next: nat := rsp + length as nat + 2;
      if next >= end {
        rsp := next;
        assert items + [] == items;
        return;
      }
      var item := Item(p[rsp], p[rsp + 2..next]);
      assert q[rsp + 2..next] == p[rsp + 2..next];
      ContinueOn(items, item, ReadItems(q, next, end));
      items := items + [item];
      rsp := next;
    }
    assert items + [] == items;
  }

  // ---- reading undoes writing ----

  /** How many items come before the first that is marked as an end. */
  function Proper(items: seq<Item>): (n: nat)
    ensures n <= |items|
    ensures n == |items| <==> forall item <- items :: item.kind != SDES_END
  {
    if items == [] || items[0].kind == SDES_END then 0 else 1 + Proper(items[1..])
  }

  /** The octets q lie in p from position `at` on. */
  predicate LiesAt(p: seq<Byte>, at: nat, q: seq<Byte>) {
    at + |q| <= |p| && forall i :: 0 <= i < |q| ==> p[at + i] == q[i]
  }

  lemma LiesParts(p: seq<Byte>, at: nat, a: seq<Byte>, b: seq<Byte>)
    requires LiesAt(p, at, a + b)
    ensures LiesAt(p, at, a) && LiesAt(p, at + |a|, b)
  {
    forall i | 0 <= i < |a| ensures p[at + i] == a[i] {
      assert (a + b)[i] == a[i];
    }
    forall i | 0 <= i < |b| ensures p[at + |a| + i] == b[i] {
      assert (a + b)[|a| + i] == b[i];
    }
  }

  lemma LiesSlice(p: seq<Byte>, at: nat, q: seq<Byte>)
    requires LiesAt(p, at, q)
    ensures p[at..at + |q|] == q
  {
  }

  lemma LiesItem(p: seq<Byte>, at: nat, item: Item)
    requires LiesAt(p, at, ItemOctets(item))
    ensures p[at] == item.kind && p[at + 1] == |Cut(item.text)|
    ensures p[at + 2..at + |ItemOctets(item)|] == Cut(item.text)
  {
    var octets := ItemOctets(item);
    assert p[at + 0] == octets[0] && p[at + 1] == octets[1];
    LiesParts(p, at, [item.kind, |Cut(item.text)|], Cut(item.text));
    LiesSlice(p, at + 2, Cut(item.text));
  }

  /** The reader takes one well-placed item and goes on behind it. */
  lemma ReadItemBack(p: seq<Byte>, at: nat, end: nat, item: Item)
    requires LiesAt(p, at, ItemOctets(item)) && at + |ItemOctets(item)| < end <= |p|
    requires item.kind != SDES_END
    ensures var rest := ReadItems(p, at + |ItemOctets(item)|, end);
            ReadItems(p, at, end) == ([Item(item.kind, Cut(item.text))] + rest.0, rest.1)
  {
    LiesItem(p, at, item);
  }

  /** An item that leaves no room for an end marker before the end of the packet is not delivered, and the
      reader goes on behind it. */
  lemma ItemUpToEndIsDropped(p: seq<Byte>, at: nat, end: nat)
    requires at + 1 < end <= |p| && p[at] != 0 && at + 2 + p[at + 1] as nat >= end
    ensures ReadItems(p, at, end) == ([], at + 2 + p[at + 1] as nat)
  {
  }

  lemma CutSome(items: seq<Item>)
    requires items != [] && items[0].kind != SDES_END
    ensures CutItems(items)[..Proper(items)] ==
            [Item(items[0].kind, Cut(items[0].text))] + CutItems(items[1..])[..Proper(items[1..])]
  {
    PrefixOfCons(Item(items[0].kind, Cut(items[0].text)), CutItems(items[1..]), Proper(items[1..]));
  }

  lemma PrefixOfCons<T>(x: T, s: seq<T>, n: nat)
    requires n <= |s|
    ensures ([x] + s)[..n + 1] == [x] + s[..n]
  {
  }

  /** What the reader finds where `items` lie, with an end marker behind them at `stop`. */
  ghost predicate Finds(r: (seq<Item>, nat), items: seq<Item>, stop: nat) {
    r.0 == CutItems(items)[..Proper(items)] && (Proper(items) == |items| ==> r.1 == stop)
  }

  ghost predicate ReadsItems(p: seq<Byte>, at: nat, end: nat, items: seq<Item>, stop: nat)
    requires at < end <= |p|
  {
    Finds(ReadItems(p, at, end), items, stop)
  }

  lemma FindsOneMore(r: (seq<Item>, nat), items: seq<Item>, stop: nat)
    requires items != [] && items[0].kind != SDES_END && Finds(r, items[1..], stop)
    ensures Finds(([Item(items[0].kind, Cut(items[0].text))] + r.0, r.1), items, stop)
  {
    CutSome(items);
  }

  lemma ReadsOneMore(p: seq<Byte>, at: nat, end: nat, items: seq<Item>, stop: nat)
    requires items != [] && items[0].kind != SDES_END
    requires LiesAt(p, at, ItemOctets(items[0])) && at + |ItemOctets(items[0])| < end <= |p|
    requires ReadsItems(p, at + |ItemOctets(items[0])|, end, items[1..], stop)
    ensures ReadsItems(p, at, end, items, stop)
  {
    ReadItemBack(p, at, end, items[0]);
    FindsOneMore(ReadItems(p, at + |ItemOctets(items[0])|, end), items, stop);
  }

  lemma {:induction false} ReadItemsBack(p: seq<Byte>, at: nat, end: nat, items: seq<Item>, stop: nat)
    requires LiesAt(p, at, ItemsOctets(items)) && stop == at + |ItemsOctets(items)|
    requires stop < end <= |p| && p[stop] == SDES_END
    ensures ReadsItems(p, at, end, items, stop)
    decreases |items|
  {
    if items != [] {
      LiesParts(p, at, ItemOctets(items[0]), ItemsOctets(items[1..]));
      if items[0].kind == SDES_END {
        LiesItem(p, at, items[0]);
      } else {
        ReadItemsBack(p, at + |ItemOctets(items[0])|, end, items[1..], stop);
        ReadsOneMore(p, at, end, items, stop);
      }
    }
  }

  lemma SkipIsPadding(body: nat)
    ensures (body / 4 + 1) * 4 == body + (4 - body % 4)
  {
  }

  /** The writer's padding and the reader's word skip agree: behind a chunk whose items all have proper
      types the reader goes on where the next chunk was written. */
  lemma ReadChunkBack(p: seq<Byte>, sd: nat, end: nat, chunk: Chunk)
    requires LiesAt(p, sd, ChunkOctets(chunk)) && sd + |ChunkOctets(chunk)| <= end <= |p|
    requires chunk.source < 0x1_0000_0000
    ensures sd + 4 < end && SourceOf(p[sd..sd + 4]) == chunk.source
    ensures var (items, rsp) := ReadItems(p, sd + 4, end);
            && items == CutItems(chunk.items)[..Proper(chunk.items)]
            && (Proper(chunk.items) == |chunk.items| ==>
                  sd + ((rsp - sd) / 4 + 1) * 4 == sd + |ChunkOctets(chunk)|)
  {
    var body, octets := Body(chunk), ItemsOctets(chunk.items);
    LiesParts(p, sd, body, Zeros(4 - |body| % 4));
    assert p[sd + |body| + 0] == Zeros(4 - |body| % 4)[0];
    LiesParts(p, sd, SourceOctets(chunk.source), octets);
    LiesSlice(p, sd, SourceOctets(chunk.source));
    SourceRoundTrip(chunk.source);
    ReadItemsBack(p, sd + 4, end, chunk.items, sd + |body|);
    SkipIsPadding(|body|);
  }

  predicate Sources(chunks: seq<Chunk>) {
    forall i :: 0 <= i < |chunks| ==> chunks[i].source < 0x1_0000_0000
  }

  predicate ProperItems(chunks: seq<Chunk>) {
    forall i :: 0 <= i < |chunks| ==> Proper(chunks[i].items) == |chunks[i].items|
  }

  /** What is read, and how many chunks are missing, is exactly `chunks`, cut to size, if and only if their
      items are proper. */
  ghost predicate Survives(r: (seq<Chunk>, nat), chunks: seq<Chunk>, missing: nat) {
    r == (CutChunks(chunks), missing) <==> ProperItems(chunks)
  }

  ghost predicate ReadsChunks(p: seq<Byte>, sd: nat, end: nat, chunks: seq<Chunk>, extra: nat)
    requires end <= |p|
  {
    Survives(ReadChunks(p, sd, end, |chunks| + extra), chunks, extra)
  }

  lemma SurvivesOneMore(r: (seq<Chunk>, nat), chunks: seq<Chunk>, extra: nat)
    requires chunks != [] && Proper(chunks[0].items) == |chunks[0].items| && Survives(r, chunks[1..], extra)
    ensures Survives(([Chunk(chunks[0].source, CutItems(chunks[0].items))] + r.0, r.1), chunks, extra)
  {
    FirstProper(chunks);
    PairHeads(Chunk(chunks[0].source, CutItems(chunks[0].items)), r, CutChunks(chunks[1..]), extra);
  }

  lemma ReadsProperChunk(p: seq<Byte>, sd: nat, next: nat, end: nat, chunks: seq<Chunk>, extra: nat)
    requires chunks != [] && LiesAt(p, sd, ChunkOctets(chunks[0]))
    requires next == sd + |ChunkOctets(chunks[0])| <= end <= |p|
    requires chunks[0].source < 0x1_0000_0000 && Proper(chunks[0].items) == |chunks[0].items|
    requires ReadsChunks(p, next, end, chunks[1..], extra)
    ensures ReadsChunks(p, sd, end, chunks, extra)
  {
    var rest := ReadChunks(p, next, end, |chunks[1..]| + extra);
    SurvivesOneMore(rest, chunks, extra);
    ReadProperChunk(p, sd, next, end, chunks[0], |chunks| + extra, rest);
  }

  lemma ReadProperChunk(p: seq<Byte>, sd: nat, next: nat, end: nat, chunk: Chunk, count: nat, rest: (seq<Chunk>, nat))
    requires LiesAt(p, sd, ChunkOctets(chunk)) && next == sd + |ChunkOctets(chunk)| <= end <= |p|
    requires chunk.source < 0x1_0000_0000 && Proper(chunk.items) == |chunk.items|
    requires count > 0 && rest == ReadChunks(p, next, end, count - 1)
    ensures ReadChunks(p, sd, end, count) == ([Chunk(chunk.source, CutItems(chunk.items))] + rest.0, rest.1)
  {
    ReadChunkBack(p, sd, end, chunk);
    assert CutItems(chunk.items)[..|chunk.items|] == CutItems(chunk.items);
  }

  lemma MissesImproperChunk(p: seq<Byte>, sd: nat, end: nat, chunks: seq<Chunk>, extra: nat)
    requires chunks != [] && LiesAt(p, sd, ChunkOctets(chunks[0])) && sd + |ChunkOctets(chunks[0])| <= end <= |p|
    requires Sources(chunks) && Proper(chunks[0].items) < |chunks[0].items|
    ensures ReadsChunks(p, sd, end, chunks, extra)
  {
    ReadChunkBack(p, sd, end, chunks[0]);
    assert ReadChunks(p, sd, end, |chunks| + extra).0[0].items == CutItems(chunks[0].items)[..Proper(chunks[0].items)];
    assert CutChunks(chunks)[0].items == CutItems(chunks[0].items);
  }

  lemma {:induction false} ReadChunksBack(p: seq<Byte>, sd: nat, end: nat, chunks: seq<Chunk>, extra: nat)
    requires LiesAt(p, sd, ChunksOctets(chunks)) && end == sd + |ChunksOctets(chunks)| <= |p|
    requires Sources(chunks)
    ensures ReadsChunks(p, sd, end, chunks, extra)
    decreases |chunks|
  {
    if chunks != [] {
      var first, rest := ChunkOctets(chunks[0]), ChunksOctets(chunks[1..]);
      LiesParts(p, sd, first, rest);
      ReadChunksBack(p, sd + |first|, end, chunks[1..], extra);
      if Proper(chunks[0].items) == |chunks[0].items| {
        ReadsProperChunk(p, sd, sd + |first|, end, chunks, extra);
      } else {
        MissesImproperChunk(p, sd, end, chunks, extra);
      }
    }
  }

  lemma FirstProper(chunks: seq<Chunk>)
    requires chunks != [] && Proper(chunks[0].items) == |chunks[0].items|
    ensures ProperItems(chunks) <==> ProperItems(chunks[1..])
  {
    assert forall i :: 0 < i < |chunks| ==> chunks[i] == chunks[1..][i - 1];
  }

  lemma PairHeads<T>(x: T, r: (seq<T>, nat), s: seq<T>, n: nat)
    ensures ([x] + r.0, r.1) == ([x] + s, n) <==> r == (s, n)
  {
    assert ([x] + r.0)[1..] == r.0 && ([x] + s)[1..] == s;
  }

  /** Chunks written one after the other behind a header word that announces them are read back, each
      text cut to 255 octets, exactly if no item has the type of an end marker; and the `extra` chunks that
      the header announces beyond them are missing. */
  lemma SdesRoundTrip(header: seq<Byte>, chunks: seq<Chunk>, extra: nat, behind: seq<Byte>)
    requires |header| == 4 && Sources(chunks)
    ensures var p := header + ChunksOctets(chunks) + behind;
            var length := |ChunksOctets(chunks)| / 4;
            && 4 * (length + 1) == 4 + |ChunksOctets(chunks)|
            && Survives(ReadChunks(p, 4, 4 * (length + 1), |chunks| + extra), chunks, extra)
  {
    WholeWords(chunks);
    var p := header + ChunksOctets(chunks) + behind;
    ReadChunksBack(p, 4, 4 + |ChunksOctets(chunks)|, chunks, extra);
  }

  lemma {:induction false} WholeWords(chunks: seq<Chunk>)
    ensures |ChunksOctets(chunks)| % 4 == 0
  {
    if chunks != [] {
      SkipIsPadding(|Body(chunks[0])|);
      WholeWords(chunks[1..]);
    }
  }

  // ---- a client that writes a packet and reads it ----

  /** The arguments of one call of rtp_write_sdes. */
  datatype Call = Call(source: nat, kinds: seq<Byte>, values: seq<seq<Byte>>, lengths: seq<nat>)

  predicate Callable(calls: seq<Call>) {
    forall i :: 0 <= i < |calls| ==>
      calls[i].source < 0x1_0000_0000 && Describes(calls[i].kinds, calls[i].values, calls[i].lengths)
  }

  function ChunkOf(call: Call): Chunk
    requires Describes(call.kinds, call.values, call.lengths)
  {
    Chunk(call.source, Described(call.kinds, call.values, call.lengths))
  }

  function ChunksOf(calls: seq<Call>): (chunks: seq<Chunk>)
    requires Callable(calls)
    ensures |chunks| == |calls| && forall i :: 0 <= i < |calls| ==> chunks[i] == ChunkOf(calls[i])
  {
    seq(|calls|, i requires 0 <= i < |calls| => ChunkOf(calls[i]))
  }

  lemma {:induction false} ChunksOctetsSnoc(chunks: seq<Chunk>, last: Chunk)
    ensures ChunksOctets(chunks + [last]) == ChunksOctets(chunks) + ChunkOctets(last)
  {
    if chunks == [] {
      assert chunks + [last] == [last];
      assert ChunksOctets([]) == [];
    } else {
      ChunksOctetsSnoc(chunks[1..], last);
      assert (chunks + [last])[1..] == chunks[1..] + [last];
      Regroup(ChunkOctets(chunks[0]), ChunksOctets(chunks[1..]), ChunkOctets(last));
    }
  }

  lemma {:induction false} ChunksOctetsLength(chunks: seq<Chunk>, n: nat)
    requires n <= |chunks|
    ensures |ChunksOctets(chunks[..n])| <= |ChunksOctets(chunks)|
  {
    if n > 0 {
      ChunksOctetsLength(chunks[1..], n - 1);
      assert chunks[..n][1..] == chunks[1..][..n - 1];
    }
  }

  function Written(chunks: seq<Chunk>, i: nat): seq<Byte>
    requires i <= |chunks|
  {
    ChunksOctets(chunks[..i])
  }

  lemma WrittenOn(chunks: seq<Chunk>, i: nat)
    requires i < |chunks|
    ensures Written(chunks, i + 1) == Written(chunks, i) + ChunkOctets(chunks[i])
    ensures |Written(chunks, i + 1)| <= |ChunksOctets(chunks)|
  {
    ChunksOctetsSnoc(chunks[..i], chunks[i]);
    assert chunks[..i + 1] == chunks[..i] + [chunks[i]];
    ChunksOctetsLength(chunks, i + 1);
  }

  /** Writes the chunks one behind the other, behind the header word. */
  method WriteAll(b: array<Byte>, calls: seq<Call>) returns (end: nat)
    requires Callable(calls) && 4 + |ChunksOctets(ChunksOf(calls))| <= b.Length
    modifies b
    ensures end == 4 + |ChunksOctets(ChunksOf(calls))|
    ensures b[..] == Laid(old(b[..]), 4, ChunksOctets(ChunksOf(calls)))
  {
    ghost var was, chunks := b[..], ChunksOf(calls);
    end := 4;
    var i := 0;
    while i < |calls|
      invariant 0 <= i <= |calls| && end == 4 + |Written(chunks, i)| <= b.Length
      invariant b[..] == Laid(was, 4, Written(chunks, i))
    {
      WrittenOn(chunks, i);
      LaidOn(was, 4, Written(chunks, i), ChunkOctets(chunks[i]));
      end := WriteSdes(b, end, calls[i].source, calls[i].kinds, calls[i].values, calls[i].lengths);
      i := i + 1;
    }
    assert chunks[..|chunks|] == chunks;
  }

  /** Read as a packet of so many words behind the first, with so many chunks announced, p gives `all` back. */
  ghost predicate GivesBack(p: seq<Byte>, length: nat, all: seq<Chunk>, extra: nat) {
    4 * (length + 1) <= |p| && Survives(ReadChunks(p, 4, 4 * (length + 1), |all| + extra), all, extra)
  }

  lemma SourcesOf(calls: seq<Call>)
    requires Callable(calls)
    ensures Sources(ChunksOf(calls))
  {
  }

  lemma LaidGivesBack(was: seq<Byte>, p: seq<Byte>, length: nat, all: seq<Chunk>, extra: nat)
    requires 4 + |ChunksOctets(all)| <= |was| && Sources(all)
    requires p == Laid(was, 4, ChunksOctets(all)) && length == |ChunksOctets(all)| / 4
    ensures GivesBack(p, length, all, extra)
  {
    SdesRoundTrip(was[..4], all, extra, was[4 + |ChunksOctets(all)|..]);
  }

  /** Writes the chunks, and returns the length for the header: the words behind the first. */
  method WritePacket(b: array<Byte>, calls: seq<Call>, ghost extra: nat) returns (length: nat)
    requires Callable(calls) && 4 + |ChunksOctets(ChunksOf(calls))| <= b.Length
    modifies b
    ensures GivesBack(b[..], length, ChunksOf(calls), extra)
  {
    ghost var was, all := b[..], ChunksOf(calls);
    SourcesOf(calls);
    var end := WriteAll(b, calls);
    length := (end - 4) / 4;
    LaidGivesBack(was, b[..], length, all, extra);
  }

  /** What one side writes behind its header the other reads back in order, each text cut to 255 octets,
      exactly if no item has the type of an end marker; chunks announced beyond them are found missing. */
  method WriteThenRead(b: array<Byte>, calls: seq<Call>, extra: nat) returns (chunks: seq<Chunk>, missing: nat)
    requires Callable(calls) && 4 + |ChunksOctets(ChunksOf(calls))| <= b.Length
    modifies b
    ensures Survives((chunks, missing), ChunksOf(calls), extra)
  {
    var length := WritePacket(b, calls, extra);
    chunks, missing := ReadSdes(b, |calls| + extra, length);
  }
}
