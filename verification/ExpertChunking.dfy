/**
 Chunking: `app/services/expert_chunking.py`.

 Text is modelled by the tokens `TOKEN_PATTERN` finds in it: joining tokens with a blank, or cleaned
 blocks with empty lines, and finding tokens again gives the concatenation of the token lists.
 */
module ExpertChunking {
  import opened Common

  type Token = string

  // ------------------------------------------------------------------ token windows

  /** Windows of at most `max` tokens, one starting every `step` tokens. */
  function Windows(tokens: seq<Token>, max: nat, step: nat): seq<seq<Token>>
    requires step > 0
    decreases |tokens|
  {
    if tokens == [] then []
    else [tokens[..Min(max, |tokens|)]] + Windows(tokens[Min(step, |tokens|)..], max, step)
  }

  method ToTokenSlices(tokens: seq<Token>, max: nat, overlap: nat) returns (r: Result<seq<seq<Token>>>)
    ensures r.Error? <==> tokens != [] && overlap >= max
    ensures r.Ok? ==> if tokens == [] then r.value == [] else r.value == Windows(tokens, max, max - overlap)
  {
    if tokens == [] {
      return Ok([]);
    }
    var step: int := max - overlap;
    if step <= 0 {
      return Error("overlap_tokens must be less than max_tokens");
    }
    var parts: seq<seq<Token>> := [];
    var cursor := 0;
    assert [] + Windows(tokens, max, step) == Windows(tokens, max, step);
    while cursor < |tokens|
      invariant 0 <= cursor
      invariant parts + WindowsBehind(tokens, cursor, max, step) == Windows(tokens, max, step)
      decreases |tokens| - cursor
    {
      var slice := tokens[cursor..Min(cursor + max, |tokens|)];
      WindowsFrom(tokens, cursor, max, step);
      Associates(parts, [slice], WindowsBehind(tokens, cursor + step, max, step));
      parts := parts + [slice];
      cursor := cursor + step;
    }
    r := Ok(parts);
  }

  /** The windows from position `cursor` on, of which there are none past the end. */
  function WindowsBehind(tokens: seq<Token>, cursor: nat, max: nat, step: nat): (r: seq<seq<Token>>)
    requires step > 0
    ensures cursor >= |tokens| ==> r == []
    ensures cursor == 0 ==> r == Windows(tokens, max, step)
  {
    assert tokens[0..] == tokens;
    Windows(tokens[Min(cursor, |tokens|)..], max, step)
  }

  lemma WindowsFrom(tokens: seq<Token>, cursor: nat, max: nat, step: nat)
    requires step > 0 && cursor < |tokens|
    ensures WindowsBehind(tokens, cursor, max, step)
         == [tokens[cursor..Min(cursor + max, |tokens|)]] + WindowsBehind(tokens, cursor + step, max, step)
  {
    var rest := tokens[cursor..];
    assert tokens[cursor..Min(cursor + max, |tokens|)] == rest[..Min(max, |rest|)];
    assert rest[Min(step, |rest|)..] == tokens[Min(cursor + step, |tokens|)..];
  }

  /** The part of each slice that no later slice repeats. */
  function Unrepeated(parts: seq<seq<Token>>, step: nat): seq<Token> {
    if parts == [] then [] else parts[0][..Min(step, |parts[0]|)] + Unrepeated(parts[1..], step)
  }

  ghost predicate OccursAt(piece: seq<Token>, part: seq<Token>, j: int) {
    0 <= j <= |part| - |piece| && part[j..j + |piece|] == piece
  }

  /** Some slice holds the `count` tokens that start at `from` in one piece. */
  ghost predicate HeldWhole(tokens: seq<Token>, from: nat, count: nat, parts: seq<seq<Token>>)
    requires from + count <= |tokens|
  {
    InSome(tokens[from..from + count], parts)
  }

  ghost predicate InSome(piece: seq<Token>, parts: seq<seq<Token>>) {
    exists i, j :: 0 <= i < |parts| && OccursAt(piece, parts[i], j)
  }

  ghost predicate EveryRunHeld(tokens: seq<Token>, count: nat, parts: seq<seq<Token>>) {
    forall from: nat | from + count <= |tokens| :: HeldWhole(tokens, from, count, parts)
  }

  /** There are ceil(n / (max - overlap)) slices, and none exceeds `max`. */
  lemma {:induction false} WindowsCount(tokens: seq<Token>, max: nat, step: nat)
    requires 0 < step <= max
    ensures var parts := Windows(tokens, max, step);
            && (tokens == [] ==> parts == [])
            && (tokens != [] ==> (|parts| - 1) * step < |tokens| <= |parts| * step)
            && (forall part | part in parts :: 0 < |part| <= max)
    decreases |tokens|
  {
    if tokens != [] {
      var rest := tokens[Min(step, |tokens|)..];
      WindowsCount(rest, max, step);
      CountStep(|tokens|, step, |Windows(rest, max, step)|);
    }
  }

  lemma CountStep(n: nat, step: nat, k: nat)
    requires step > 0 && n > 0
    requires n <= step ==> k == 0
    requires n > step ==> (k - 1) * step < n - step <= k * step
    ensures k * step < n <= (k + 1) * step
  {
    assert (k + 1) * step == k * step + step;
    assert (k - 1) * step == k * step - step;
  }

  lemma UnrepeatedCons(first: seq<Token>, later: seq<seq<Token>>, step: nat)
    ensures Unrepeated([first] + later, step) == first[..Min(step, |first|)] + Unrepeated(later, step)
  {
    assert ([first] + later)[1..] == later;
  }

  /** Nothing is lost and nothing is out of order. */
  lemma {:induction false} WindowsKeepTokens(tokens: seq<Token>, max: nat, step: nat)
    requires 0 < step <= max
    ensures Unrepeated(Windows(tokens, max, step), step) == tokens
    decreases |tokens|
  {
    if tokens != [] {
      var rest := tokens[Min(step, |tokens|)..];
      WindowsKeepTokens(rest, max, step);
      var first := tokens[..Min(max, |tokens|)];
      UnrepeatedCons(first, Windows(rest, max, step), step);
      assert first[..Min(step, |first|)] == tokens[..Min(step, |tokens|)];
    }
  }

  /** Every run of `overlap + 1` consecutive tokens lies whole inside some slice. */
  lemma {:induction false} WindowsHoldRuns(tokens: seq<Token>, max: nat, overlap: nat)
    requires overlap < max
    ensures EveryRunHeld(tokens, overlap + 1, Windows(tokens, max, max - overlap))
    decreases |tokens|
  {
    if tokens != [] {
      var step, count := max - overlap, overlap + 1;
      var rest := tokens[Min(step, |tokens|)..];
      var parts, later := Windows(tokens, max, step), Windows(rest, max, step);
      WindowsHoldRuns(rest, max, overlap);
      forall from: nat | from + count <= |tokens| ensures HeldWhole(tokens, from, count, parts) {
        if from < step {
          HeldByFirst(tokens, from, count, max, later);
        } else {
          assert HeldWhole(rest, from - step, count, later);
          assert tokens[from..from + count] == rest[from - step..from - step + count];
          InSomeLater(tokens[from..from + count], parts[0], later);
        }
      }
    }
  }

  lemma HeldByFirst(tokens: seq<Token>, from: nat, count: nat, max: nat, later: seq<seq<Token>>)
    requires from + count <= |tokens| && from + count <= max
    ensures HeldWhole(tokens, from, count, [tokens[..Min(max, |tokens|)]] + later)
  {
    var first := tokens[..Min(max, |tokens|)];
    assert first[from..from + count] == tokens[from..from + count];
    assert OccursAt(tokens[from..from + count], ([first] + later)[0], from);
  }

  lemma InSomeLater(piece: seq<Token>, first: seq<Token>, later: seq<seq<Token>>)
    requires InSome(piece, later)
    ensures InSome(piece, [first] + later)
  {
    var i, j :| 0 <= i < |later| && OccursAt(piece, later[i], j);
    var parts := [first] + later;
    assert parts[i + 1] == later[i];
    assert OccursAt(piece, parts[i + 1], j);
  }

  // ------------------------------------------------------------------- text packing

  /** A text block; `None` when nothing is left after stripping. */
  datatype TextBlock = TextBlock(page: int, text: Option<seq<Token>>)

  /** A cleaned block waiting in, or packed from, the buffer. */
  datatype Part = Part(page: int, tokens: seq<Token>)

  datatype PageMark = Single(page: int) | Range(first: int, last: int)

  datatype Chunk = Packed(parts: seq<Part>, pages: PageMark) | Slice(tokens: seq<Token>, page: int)

  /** What chunks are made of: a block as a whole, or one slice of an oversized block. */
  datatype Item = Whole(part: Part) | Piece(tokens: seq<Token>, page: int)

  function Count(parts: seq<Part>): nat {
    if parts == [] then 0 else Count(parts[..|parts| - 1]) + |parts[|parts| - 1].tokens|
  }

  function Size(c: Chunk): nat {
    if c.Packed? then Count(c.parts) else |c.tokens|
  }

  function Lowest(parts: seq<Part>): (p: int)
    requires parts != []
    ensures exists i | 0 <= i < |parts| :: parts[i].page == p
    ensures forall i | 0 <= i < |parts| :: p <= parts[i].page
  {
    if |parts| == 1 then parts[0].page else Min(parts[0].page, Lowest(parts[1..]))
  }

  function Highest(parts: seq<Part>): (p: int)
    requires parts != []
    ensures exists i | 0 <= i < |parts| :: parts[i].page == p
    ensures forall i | 0 <= i < |parts| :: parts[i].page <= p
  {
    if |parts| == 1 then parts[0].page else Max(parts[0].page, Highest(parts[1..]))
  }

  /** `_page_marker`: the page, or the lowest and the highest of several. */
  function MarkPages(parts: seq<Part>): (r: PageMark)
    ensures parts == [] ==> r == Single(1)
    ensures r.Single? && parts != [] ==> forall i | 0 <= i < |parts| :: parts[i].page == r.page
    ensures r.Range? ==> r.first < r.last && forall i | 0 <= i < |parts| :: r.first <= parts[i].page <= r.last
    ensures r.Range? ==> (exists i | 0 <= i < |parts| :: parts[i].page == r.first)
                         && exists i | 0 <= i < |parts| :: parts[i].page == r.last
  {
    if parts == [] then Single(1)
    else if Lowest(parts) == Highest(parts) then Single(Lowest(parts))
    else Range(Lowest(parts), Highest(parts))
  }

  // ----------------------------------------------- what goes in and what comes out

  predicate Oversized(b: TextBlock, max: nat) {
    b.text.Some? && |b.text.value| > max
  }

  function Wholes(parts: seq<Part>): (r: seq<Item>)
    ensures |r| == |parts| && forall i | 0 <= i < |r| :: r[i] == Whole(parts[i])
  {
    seq(|parts|, i requires 0 <= i < |parts| => Whole(parts[i]))
  }

  function Pieces(slices: seq<seq<Token>>, page: int): (r: seq<Item>)
    ensures |r| == |slices| && forall i | 0 <= i < |r| :: r[i] == Piece(slices[i], page)
  {
    seq(|slices|, i requires 0 <= i < |slices| => Piece(slices[i], page))
  }

  /** A block contributes nothing, its windows if it is oversized, and itself otherwise. */
  function BlockItems(b: TextBlock, max: nat, overlap: nat): seq<Item>
    requires overlap < max
  {
    if b.text.None? then []
    else if Oversized(b, max) then Pieces(Windows(b.text.value, max, max - overlap), b.page)
    else [Whole(Part(b.page, b.text.value))]
  }

  function InputItems(blocks: seq<TextBlock>, max: nat, overlap: nat): seq<Item>
    requires overlap < max
  {
    if blocks == [] then [] else BlockItems(blocks[0], max, overlap) + InputItems(blocks[1..], max, overlap)
  }

  function ItemsOf(c: Chunk): seq<Item> {
    if c.Packed? then Wholes(c.parts) else [Piece(c.tokens, c.page)]
  }

  function Items(chunks: seq<Chunk>): seq<Item> {
    if chunks == [] then [] else ItemsOf(chunks[0]) + Items(chunks[1..])
  }

  lemma {:induction false} ItemsAppend(a: seq<Chunk>, b: seq<Chunk>)
    ensures Items(a + b) == Items(a) + Items(b)
    decreases |a|
  {
    if a == [] {
      assert a + b == b;
    } else {
      assert (a + b)[1..] == a[1..] + b;
      ItemsAppend(a[1..], b);
      Associates(ItemsOf(a[0]), Items(a[1..]), Items(b));
    }
  }

  lemma ItemsOneMore(chunks: seq<Chunk>, c: Chunk)
    ensures Items(chunks + [c]) == Items(chunks) + ItemsOf(c)
  {
    ItemsAppend(chunks, [c]);
    assert [c][1..] == [];
  }

  lemma {:induction false} InputItemsAppend(a: seq<TextBlock>, b: seq<TextBlock>, max: nat, overlap: nat)
    requires overlap < max
    ensures InputItems(a + b, max, overlap) == InputItems(a, max, overlap) + InputItems(b, max, overlap)
    decreases |a|
  {
    if a == [] {
      assert a + b == b;
    } else {
      assert (a + b)[1..] == a[1..] + b;
      InputItemsAppend(a[1..], b, max, overlap);
      Associates(BlockItems(a[0], max, overlap), InputItems(a[1..], max, overlap), InputItems(b, max, overlap));
    }
  }

  lemma InputItemsOneMore(blocks: seq<TextBlock>, i: nat, max: nat, overlap: nat)
    requires overlap < max && i < |blocks|
    ensures InputItems(blocks[..i + 1], max, overlap)
         == InputItems(blocks[..i], max, overlap) + BlockItems(blocks[i], max, overlap)
  {
    assert blocks[..i + 1] == blocks[..i] + [blocks[i]];
    InputItemsAppend(blocks[..i], [blocks[i]], max, overlap);
    assert [blocks[i]][1..] == [];
  }

  // ------------------------------------------------------------------- no token is lost

  /** Tokens with the page they stand on. */
  type Paged = seq<(int, Token)>

  function OnPage(tokens: seq<Token>, page: int): (r: Paged)
    ensures |r| == |tokens|
  {
    seq(|tokens|, i requires 0 <= i < |tokens| => (page, tokens[i]))
  }

  function InputText(blocks: seq<TextBlock>): Paged {
    if blocks == [] then []
    else
      var b := blocks[0];
      (if b.text.None? then [] else OnPage(b.text.value, b.page)) + InputText(blocks[1..])
  }

  /** Of each slice only what the next slice does not repeat counts. */
  function ItemText(item: Item, step: nat): Paged {
    if item.Whole? then OnPage(item.part.tokens, item.part.page)
    else OnPage(item.tokens[..Min(step, |item.tokens|)], item.page)
  }

  function TextOf(items: seq<Item>, step: nat): Paged {
    if items == [] then [] else ItemText(items[0], step) + TextOf(items[1..], step)
  }

  function OutputText(chunks: seq<Chunk>, step: nat): Paged {
    TextOf(Items(chunks), step)
  }

  lemma {:induction false} TextAppend(a: seq<Item>, b: seq<Item>, step: nat)
    ensures TextOf(a + b, step) == TextOf(a, step) + TextOf(b, step)
    decreases |a|
  {
    if a == [] {
      assert a + b == b;
    } else {
      assert (a + b)[1..] == a[1..] + b;
      TextAppend(a[1..], b, step);
      Associates(ItemText(a[0], step), TextOf(a[1..], step), TextOf(b, step));
    }
  }

  lemma OneItemText(item: Item, step: nat)
    ensures TextOf([item], step) == ItemText(item, step)
  {
    assert [item][1..] == [];
  }

  lemma OnPageAppend(a: seq<Token>, b: seq<Token>, page: int)
    ensures OnPage(a + b, page) == OnPage(a, page) + OnPage(b, page)
  {
  }

  lemma {:induction false} PiecesText(slices: seq<seq<Token>>, page: int, step: nat)
    ensures TextOf(Pieces(slices, page), step) == OnPage(Unrepeated(slices, step), page)
    decreases |slices|
  {
    if slices != [] {
      PiecesText(slices[1..], page, step);
      assert Pieces(slices, page)[1..] == Pieces(slices[1..], page);
      OnPageAppend(slices[0][..Min(step, |slices[0]|)], Unrepeated(slices[1..], step), page);
    }
  }

  lemma BlockText(b: TextBlock, max: nat, overlap: nat)
    requires overlap < max
    ensures TextOf(BlockItems(b, max, overlap), max - overlap) == if b.text.None? then [] else OnPage(b.text.value, b.page)
  {
    if Oversized(b, max) {
      PiecesText(Windows(b.text.value, max, max - overlap), b.page, max - overlap);
      WindowsKeepTokens(b.text.value, max, max - overlap);
    } else if b.text.Some? {
      OneItemText(Whole(Part(b.page, b.text.value)), max - overlap);
    }
  }

  /** The items of the blocks hold their text, every token once and in order. */
  lemma {:induction false} ItemsKeepText(blocks: seq<TextBlock>, max: nat, overlap: nat)
    requires overlap < max
    ensures TextOf(InputItems(blocks, max, overlap), max - overlap) == InputText(blocks)
    decreases |blocks|
  {
    if blocks != [] {
      ItemsKeepText(blocks[1..], max, overlap);
      TextAppend(BlockItems(blocks[0], max, overlap), InputItems(blocks[1..], max, overlap), max - overlap);
      BlockText(blocks[0], max, overlap);
    }
  }

  // ------------------------------------------------------------- where chunks begin and end

  /** A buffer is emitted as soon as it holds `min` tokens, and no sooner on its own account. */
  ghost predicate ClosedInTime(parts: seq<Part>, min: nat) {
    forall k | 0 <= k < |parts| :: Count(parts[..k]) < min
  }

  /** Why a packed chunk ended before a packed chunk that starts with `first`. */
  ghost predicate HadToEnd(c: Chunk, first: Part, min: nat, max: nat) {
    Size(c) >= min || (Size(c) > 0 && Size(c) + |first.tokens| > max)
  }

  ghost predicate WellFormed(c: Chunk, min: nat, max: nat) {
    && Size(c) <= max
    && (c.Packed? ==> c.parts != [] && ClosedInTime(c.parts, min) && c.pages == MarkPages(c.parts))
  }

  /** Every chunk is well formed, and every packed one may come after the chunk before it. */
  ghost predicate WellPacked(chunks: seq<Chunk>, min: nat, max: nat)
    decreases |chunks|
  {
    chunks == [] ||
    (var k := |chunks| - 1;
     && WellPacked(chunks[..k], min, max) && WellFormed(chunks[k], min, max)
     && (chunks[k].Packed? ==> Follows(chunks[..k], chunks[k].parts, min, max)))
  }

  /** A packed chunk made of `parts` may come after `chunks`. */
  ghost predicate Follows(chunks: seq<Chunk>, parts: seq<Part>, min: nat, max: nat) {
    chunks != [] && chunks[|chunks| - 1].Packed? && parts != [] ==> HadToEnd(chunks[|chunks| - 1], parts[0], min, max)
  }

  /** Between two blocks the buffer is short of `min`, and an empty one means the last chunk is not. */
  ghost predicate Buffering(chunks: seq<Chunk>, buffer: seq<Part>, min: nat, max: nat) {
    && Count(buffer) < min && ClosedInTime(buffer, min)
    && Follows(chunks, buffer, min, max)
    && (buffer == [] ==> Settled(chunks, min))
  }

  ghost predicate Settled(chunks: seq<Chunk>, min: nat) {
    chunks != [] && chunks[|chunks| - 1].Packed? ==> Size(chunks[|chunks| - 1]) >= min
  }

  lemma WellPackedAppend(chunks: seq<Chunk>, c: Chunk, min: nat, max: nat)
    requires WellPacked(chunks, min, max) && WellFormed(c, min, max)
    requires c.Packed? ==> Follows(chunks, c.parts, min, max)
    ensures WellPacked(chunks + [c], min, max)
  {
    assert (chunks + [c])[..|chunks|] == chunks;
  }

  /** What being well packed says of chunk `i` and of its neighbour before it. */
  lemma {:induction false} WellPackedAt(chunks: seq<Chunk>, i: nat, min: nat, max: nat)
    requires WellPacked(chunks, min, max) && i < |chunks|
    ensures WellFormed(chunks[i], min, max)
    ensures i > 0 && chunks[i - 1].Packed? && chunks[i].Packed? ==> HadToEnd(chunks[i - 1], chunks[i].parts[0], min, max)
    decreases |chunks|
  {
    if i < |chunks| - 1 {
      WellPackedAt(chunks[..|chunks| - 1], i, min, max);
    }
  }

  lemma PartsOneMore(parts: seq<Part>, p: Part, min: nat)
    ensures Count(parts + [p]) == Count(parts) + |p.tokens|
    ensures Wholes(parts + [p]) == Wholes(parts) + [Whole(p)]
    ensures ClosedInTime(parts, min) && Count(parts) < min ==> ClosedInTime(parts + [p], min)
  {
    assert (parts + [p])[..|parts|] == parts;
    assert forall k | 0 <= k < |parts| :: (parts + [p])[..k] == parts[..k];
  }

  class Packer {
    const min: nat
    const max: nat
    const overlap: nat
    var chunks: seq<Chunk>
    var buffer: seq<Part>
    var bufferTokens: nat

    ghost predicate Valid()
      reads this
    {
      && 0 < min <= max && overlap < max
      && bufferTokens == Count(buffer)
      && WellPacked(chunks, min, max)
    }

    /** Everything taken in so far, emitted or waiting. */
    ghost function Held(): seq<Item>
      reads this
    {
      Items(chunks) + Wholes(buffer)
    }

    constructor (min: nat, max: nat, overlap: nat)
      requires 0 < min <= max && overlap < max
      ensures Valid() && chunks == [] && buffer == []
      ensures this.min == min && this.max == max && this.overlap == overlap
    {
      this.min, this.max, this.overlap := min, max, overlap;
      chunks, buffer, bufferTokens := [], [], 0;
    }

    /** `flush_buffer` */
    method Flush()
      requires Valid() && Count(buffer) <= max && ClosedInTime(buffer, min) && Follows(chunks, buffer, min, max)
      modifies this`chunks, this`buffer, this`bufferTokens
      ensures Valid() && buffer == [] && Items(chunks) == Held() == old(Held())
      ensures chunks == if old(buffer) == [] then old(chunks)
                        else old(chunks) + [Packed(old(buffer), MarkPages(old(buffer)))]
    {
      if buffer != [] {
        WellPackedAppend(chunks, Packed(buffer, MarkPages(buffer)), min, max);
        ItemsOneMore(chunks, Packed(buffer, MarkPages(buffer)));
        chunks := chunks + [Packed(buffer, MarkPages(buffer))];
        buffer, bufferTokens := [], 0;
      }
    }

    /** The slices of a block that is larger than a chunk may be. */
    method AddOversized(b: TextBlock)
      requires Valid() && Oversized(b, max)
      modifies this`chunks
      ensures Valid()
      ensures chunks != [] && chunks[|chunks| - 1].Slice?
      ensures Items(chunks) == Items(old(chunks)) + BlockItems(b, max, overlap)
    {
      var r := ToTokenSlices(b.text.value, max, overlap);
      WindowsCount(b.text.value, max, max - overlap);
      assert forall k | 0 <= k < |r.value| :: r.value[k] in r.value;
      AddSlices(r.value, b.page);
    }

    method AddSlices(slices: seq<seq<Token>>, page: int)
      requires Valid() && forall k | 0 <= k < |slices| :: |slices[k]| <= max
      modifies this`chunks
      ensures Valid()
      ensures Items(chunks) == Items(old(chunks)) + Pieces(slices, page)
      ensures slices != [] ==> chunks != [] && chunks[|chunks| - 1].Slice?
    {
      var i := 0;
      while i < |slices|
        invariant i <= |slices| && Valid()
        invariant Items(chunks) == Items(old(chunks)) + Pieces(slices[..i], page)
        invariant i > 0 ==> chunks != [] && chunks[|chunks| - 1].Slice?
      {
        PiecesOneMore(Items(old(chunks)), slices, i, page);
        WellPackedAppend(chunks, Slice(slices[i], page), min, max);
        ItemsOneMore(chunks, Slice(slices[i], page));
        chunks := chunks + [Slice(slices[i], page)];
        i := i + 1;
      }
      assert slices[..i] == slices;
    }

    /** One turn of the loop over the blocks. */
    method Add(b: TextBlock)
      requires Valid() && Buffering(chunks, buffer, min, max)
      modifies this`chunks, this`buffer, this`bufferTokens
      ensures Valid() && Buffering(chunks, buffer, min, max)
      ensures Held() == old(Held()) + BlockItems(b, max, overlap)
    {
      if b.text.None? {
        return;
      }
      if |b.text.value| > max {
        Flush();
        AddOversized(b);
      } else {
        AddSmall(Part(b.page, b.text.value));
      }
    }

    method AddSmall(p: Part)
      requires Valid() && Buffering(chunks, buffer, min, max) && |p.tokens| <= max
      modifies this`chunks, this`buffer, this`bufferTokens
      ensures Valid() && Buffering(chunks, buffer, min, max)
      ensures Held() == old(Held()) + [Whole(p)]
    {
      MakeRoom(p);
      Append(p);
      if bufferTokens >= min {
        Flush();
      }
    }

    /** Flushes what the next part would push over `max`. */
    method MakeRoom(p: Part)
      requires Valid() && Buffering(chunks, buffer, min, max) && |p.tokens| <= max
      modifies this`chunks, this`buffer, this`bufferTokens
      ensures Valid() && Count(buffer) < min && ClosedInTime(buffer, min) && Count(buffer) + |p.tokens| <= max
      ensures Follows(chunks, buffer + [p], min, max)
      ensures Held() == old(Held())
    {
      if bufferTokens > 0 && bufferTokens + |p.tokens| > max {
        Flush();
      }
    }

    method Append(p: Part)
      requires Valid() && ClosedInTime(buffer, min) && Count(buffer) < min
      modifies this`buffer, this`bufferTokens
      ensures Valid() && buffer == old(buffer) + [p] && Count(buffer) == Count(old(buffer)) + |p.tokens|
      ensures ClosedInTime(buffer, min)
      ensures Held() == old(Held()) + [Whole(p)]
    {
      PartsOneMore(buffer, p, min);
      Associates(Items(chunks), Wholes(buffer), [Whole(p)]);
      buffer, bufferTokens := buffer + [p], bufferTokens + |p.tokens|;
    }
  }

  lemma PiecesOneMore(items: seq<Item>, slices: seq<seq<Token>>, i: nat, page: int)
    requires i < |slices|
    ensures items + Pieces(slices[..i + 1], page) == items + Pieces(slices[..i], page) + [Piece(slices[i], page)]
  {
  }

  /** What `_split_text_blocks` promises; `PackingIsDetermined` shows that one list of chunks only meets it. */
  ghost predicate IsPacking(blocks: seq<TextBlock>, min: nat, max: nat, overlap: nat, chunks: seq<Chunk>)
    requires overlap < max
  {
    Items(chunks) == InputItems(blocks, max, overlap) && WellPacked(chunks, min, max)
  }

  /** `_split_text_blocks` */
  method SplitTextBlocks(blocks: seq<TextBlock>, min: nat, max: nat, overlap: nat) returns (chunks: seq<Chunk>)
    requires 0 < min <= max && overlap < max
    ensures IsPacking(blocks, min, max, overlap, chunks)
    ensures OutputText(chunks, max - overlap) == InputText(blocks)
  {
    var packer := new Packer(min, max, overlap);
    var i := 0;
    while i < |blocks|
      invariant i <= |blocks|
      invariant packer.Valid() && Buffering(packer.chunks, packer.buffer, min, max)
      invariant packer.Held() == InputItems(blocks[..i], max, overlap)
    {
      packer.Add(blocks[i]);
      InputItemsOneMore(blocks, i, max, overlap);
      i := i + 1;
    }
    assert blocks[..i] == blocks;
    packer.Flush();
    chunks := packer.chunks;
    ItemsKeepText(blocks, max, overlap);
  }

  // ------------------------------------------------- the contract leaves no choice

  lemma {:induction false} WellPackedWithoutFirst(chunks: seq<Chunk>, min: nat, max: nat)
    requires chunks != [] && WellPacked(chunks, min, max)
    ensures WellPacked(chunks[1..], min, max)
    decreases |chunks|
  {
    if |chunks| > 1 {
      var k := |chunks| - 1;
      WellPackedWithoutFirst(chunks[..k], min, max);
      assert chunks[1..][..k - 1] == chunks[..k][1..];
    }
  }

  lemma ChunksHaveItems(chunks: seq<Chunk>, min: nat, max: nat)
    requires chunks != [] && WellPacked(chunks, min, max)
    ensures ItemsOf(chunks[0]) != [] && Items(chunks) != [] && Items(chunks)[0] == ItemsOf(chunks[0])[0]
  {
    WellPackedAt(chunks, 0, min, max);
  }

  lemma {:induction false} CountOfPrefix(parts: seq<Part>, k: nat)
    requires k < |parts|
    ensures Count(parts[..k]) + |parts[k].tokens| <= Count(parts)
    decreases |parts|
  {
    var n := |parts| - 1;
    if k < n {
      CountOfPrefix(parts[..n], k);
      assert parts[..n][..k] == parts[..k];
    }
  }

  /** The parts of two first chunks agree as far as both go. */
  lemma FirstPartsAgree(a: seq<Chunk>, b: seq<Chunk>)
    requires a != [] && b != [] && a[0].Packed? && b[0].Packed? && Items(a) == Items(b)
    requires |a[0].parts| <= |b[0].parts|
    ensures a[0].parts == b[0].parts[..|a[0].parts|]
  {
    forall i | 0 <= i < |a[0].parts| ensures a[0].parts[i] == b[0].parts[i] {
      assert Items(a)[i] == Whole(a[0].parts[i]) && Items(b)[i] == Whole(b[0].parts[i]);
    }
  }

  /** Behind a first chunk that is shorter another packed chunk comes, and it starts with the next part. */
  lemma NextPartStartsAChunk(a: seq<Chunk>, b: seq<Chunk>, min: nat, max: nat)
    requires a != [] && b != [] && a[0].Packed? && b[0].Packed?
    requires WellPacked(a, min, max) && Items(a) == Items(b) && |a[0].parts| < |b[0].parts|
    ensures |a| > 1 && a[1].Packed? && a[1].parts != [] && a[1].parts[0] == b[0].parts[|a[0].parts|]
  {
    var n := |a[0].parts|;
    assert Items(b)[n] == Whole(b[0].parts[n]);
    assert a[1..] != [] by { assert |Items(a)| > n; }
    WellPackedWithoutFirst(a, min, max);
    ChunksHaveItems(a[1..], min, max);
    assert Items(a)[n] == Items(a[1..])[0];
  }

  /** Of two packings of the same items neither can end its first chunk before the other does. */
  lemma FirstChunkIsNoShorter(a: seq<Chunk>, b: seq<Chunk>, min: nat, max: nat)
    requires a != [] && b != [] && a[0].Packed? && b[0].Packed?
    requires WellPacked(a, min, max) && WellPacked(b, min, max) && Items(a) == Items(b)
    ensures |a[0].parts| >= |b[0].parts|
  {
    var x, y := a[0].parts, b[0].parts;
    if |x| < |y| {
      FirstPartsAgree(a, b);
      NextPartStartsAChunk(a, b, min, max);
      CountOfPrefix(y, |x|);
      WellPackedAt(b, 0, min, max);
      WellPackedAt(a, 1, min, max);
    }
  }

  lemma FirstPackedIsDetermined(a: seq<Chunk>, b: seq<Chunk>, min: nat, max: nat)
    requires a != [] && b != [] && a[0].Packed? && b[0].Packed?
    requires WellPacked(a, min, max) && WellPacked(b, min, max) && Items(a) == Items(b)
    ensures a[0] == b[0]
  {
    FirstChunkIsNoShorter(a, b, min, max);
    FirstChunkIsNoShorter(b, a, min, max);
    FirstPartsAgree(a, b);
    assert a[0].parts == b[0].parts;
    WellPackedAt(a, 0, min, max);
    WellPackedAt(b, 0, min, max);
    assert WellFormed(a[0], min, max) && WellFormed(b[0], min, max);
  }

  lemma SliceIsDetermined(c: Chunk, d: Chunk)
    requires ItemsOf(c) != [] && ItemsOf(d) != [] && ItemsOf(c)[0] == ItemsOf(d)[0]
    ensures c.Packed? <==> d.Packed?
    ensures c.Slice? ==> c == d
  {
  }

  lemma FirstChunkIsDetermined(a: seq<Chunk>, b: seq<Chunk>, min: nat, max: nat)
    requires a != [] && b != []
    requires WellPacked(a, min, max) && WellPacked(b, min, max) && Items(a) == Items(b)
    ensures a[0] == b[0]
  {
    ChunksHaveItems(a, min, max);
    ChunksHaveItems(b, min, max);
    SliceIsDetermined(a[0], b[0]);
    if a[0].Packed? {
      FirstPackedIsDetermined(a, b, min, max);
    }
  }

  /** Which blocks share a chunk, and where slices stand, is fixed: two packings of the same blocks are equal. */
  lemma {:induction false} PackingIsDetermined(a: seq<Chunk>, b: seq<Chunk>, min: nat, max: nat)
    requires WellPacked(a, min, max) && WellPacked(b, min, max) && Items(a) == Items(b)
    ensures a == b
    decreases |a|
  {
    if a != [] && b != [] {
      FirstChunkIsDetermined(a, b, min, max);
      WellPackedWithoutFirst(a, min, max);
      WellPackedWithoutFirst(b, min, max);
      CutEarlier(ItemsOf(a[0]), Items(a[1..]), ItemsOf(b[0]), Items(b[1..]));
      PackingIsDetermined(a[1..], b[1..], min, max);
      assert a == [a[0]] + a[1..] && b == [b[0]] + b[1..];
    } else if a != [] {
      ChunksHaveItems(a, min, max);
    } else if b != [] {
      ChunksHaveItems(b, min, max);
    }
  }

  // ----------------------------------------------- what the packing conditions are worth

  lemma {:induction false} ItemIsInSomeChunk(chunks: seq<Chunk>, item: Item)
    requires item in Items(chunks)
    ensures exists c :: c in chunks && item in ItemsOf(c)
    decreases |chunks|
  {
    if item in ItemsOf(chunks[0]) {
      assert chunks[0] in chunks;
    } else {
      ItemIsInSomeChunk(chunks[1..], item);
      var c :| c in chunks[1..] && item in ItemsOf(c);
      assert c in chunks;
    }
  }

  lemma {:induction false} BlockItemIsInput(blocks: seq<TextBlock>, i: nat, item: Item, max: nat, overlap: nat)
    requires overlap < max && i < |blocks| && item in BlockItems(blocks[i], max, overlap)
    ensures item in InputItems(blocks, max, overlap)
    decreases |blocks|
  {
    if i > 0 {
      assert blocks[1..][i - 1] == blocks[i];
      BlockItemIsInput(blocks[1..], i - 1, item, max, overlap);
    }
    InConcat(BlockItems(blocks[0], max, overlap), InputItems(blocks[1..], max, overlap), item);
  }

  /** A block that fits into a chunk is never cut: it stays whole inside one packed chunk. */
  lemma SmallBlocksStayWhole(blocks: seq<TextBlock>, i: nat, min: nat, max: nat, overlap: nat, chunks: seq<Chunk>)
    requires overlap < max && IsPacking(blocks, min, max, overlap, chunks)
    requires i < |blocks| && blocks[i].text.Some? && |blocks[i].text.value| <= max
    ensures exists c :: c in chunks && c.Packed? && Part(blocks[i].page, blocks[i].text.value) in c.parts
  {
    var part := Part(blocks[i].page, blocks[i].text.value);
    BlockItemIsInput(blocks, i, Whole(part), max, overlap);
    ItemIsInSomeChunk(chunks, Whole(part));
    var c :| c in chunks && Whole(part) in ItemsOf(c);
    var k :| 0 <= k < |ItemsOf(c)| && ItemsOf(c)[k] == Whole(part);
    assert c.Packed? && c.parts[k] == part;
  }

  /** Each window of a block with more than `max` tokens is a chunk of its own. */
  lemma LargeBlocksAreSliced(blocks: seq<TextBlock>, i: nat, min: nat, max: nat, overlap: nat, chunks: seq<Chunk>, k: nat)
    requires overlap < max && IsPacking(blocks, min, max, overlap, chunks)
    requires i < |blocks| && blocks[i].text.Some? && |blocks[i].text.value| > max
    requires k < |Windows(blocks[i].text.value, max, max - overlap)|
    ensures Slice(Windows(blocks[i].text.value, max, max - overlap)[k], blocks[i].page) in chunks
  {
    var piece := Piece(Windows(blocks[i].text.value, max, max - overlap)[k], blocks[i].page);
    assert BlockItems(blocks[i], max, overlap)[k] == piece;
    BlockItemIsInput(blocks, i, piece, max, overlap);
    ItemIsInSomeChunk(chunks, piece);
    var c :| c in chunks && piece in ItemsOf(c);
    assert c == Slice(piece.tokens, piece.page);
  }

  function TotalSize(chunks: seq<Chunk>): nat {
    if chunks == [] then 0 else Size(chunks[0]) + TotalSize(chunks[1..])
  }

  /** Two neighbouring packed chunks together reach `min`. */
  lemma NeighboursReachMin(chunks: seq<Chunk>, i: nat, min: nat, max: nat)
    requires min <= max && WellPacked(chunks, min, max) && i + 1 < |chunks|
    requires chunks[i].Packed? && chunks[i + 1].Packed?
    ensures Size(chunks[i]) + Size(chunks[i + 1]) >= min
  {
    WellPackedAt(chunks, i + 1, min, max);
    CountOfPrefix(chunks[i + 1].parts, 0);
  }

  /** Any run of packed chunks with no slice between them holds at least min tokens per pair. */
  lemma {:induction false} RunsAreDense(chunks: seq<Chunk>, from: nat, to: nat, min: nat, max: nat)
    requires min <= max && WellPacked(chunks, min, max) && from <= to <= |chunks|
    requires forall i | from <= i < to :: chunks[i].Packed?
    ensures (to - from) / 2 * min <= TotalSize(chunks[from..to])
    decreases |chunks| - from
  {
    if to - from >= 2 {
      NeighboursReachMin(chunks, from, min, max);
      RunsAreDense(chunks, from + 2, to, min, max);
      TotalSizeOfTwoAndMore(chunks, from, to);
      PairsAddUp(to - from, min);
    }
  }

  lemma TotalSizeOfTwoAndMore(chunks: seq<Chunk>, from: nat, to: nat)
    requires from + 2 <= to <= |chunks|
    ensures TotalSize(chunks[from..to]) == Size(chunks[from]) + Size(chunks[from + 1]) + TotalSize(chunks[from + 2..to])
  {
    assert chunks[from..to][1..] == chunks[from + 1..to];
    assert chunks[from + 1..to][1..] == chunks[from + 2..to];
  }

  lemma PairsAddUp(n: nat, min: nat)
    requires n >= 2
    ensures n / 2 * min == (n - 2) / 2 * min + min
  {
    assert n / 2 == (n - 2) / 2 + 1;
    assert ((n - 2) / 2 + 1) * min == (n - 2) / 2 * min + min;
  }

  lemma {:induction false} WholesTextSize(parts: seq<Part>, step: nat)
    ensures |TextOf(Wholes(parts), step)| == Count(parts)
    decreases |parts|
  {
    if parts != [] {
      var k := |parts| - 1;
      WholesTextSize(parts[..k], step);
      assert Wholes(parts) == Wholes(parts[..k]) + [Whole(parts[k])];
      TextAppend(Wholes(parts[..k]), [Whole(parts[k])], step);
      OneItemText(Whole(parts[k]), step);
    }
  }

  lemma {:induction false} PackedTextSize(chunks: seq<Chunk>, step: nat)
    requires forall i | 0 <= i < |chunks| :: chunks[i].Packed?
    ensures |OutputText(chunks, step)| == TotalSize(chunks)
    decreases |chunks|
  {
    if chunks != [] {
      PackedTextSize(chunks[1..], step);
      TextAppend(ItemsOf(chunks[0]), Items(chunks[1..]), step);
      WholesTextSize(chunks[0].parts, step);
    }
  }

  /** Chunks end where slices begin or end: a border of the items next to a slice is a border of chunks. */
  lemma {:induction false} BorderOfChunks(chunks: seq<Chunk>, x: seq<Item>, y: seq<Item>) returns (k: nat)
    requires Items(chunks) == x + y
    requires x == [] || y == [] || x[|x| - 1].Piece? || y[0].Piece?
    ensures k <= |chunks| && Items(chunks[..k]) == x && Items(chunks[k..]) == y
    decreases |chunks|
  {
    if x == [] {
      assert chunks[0..] == chunks && [] + y == y;
      return 0;
    }
    var first, rest := ItemsOf(chunks[0]), Items(chunks[1..]);
    if |x| < |first| {
      CutLater(first, rest, x, y);
      StraddledHasNoSlice(chunks[0], |x|);
    }
    CutEarlier(first, rest, x, y);
    k := BorderOfChunks(chunks[1..], x[|first|..], y);
    assert chunks[..k + 1][1..] == chunks[1..][..k] && chunks[1..][k..] == chunks[k + 1..];
    k := k + 1;
  }

  lemma StraddledHasNoSlice(c: Chunk, at: nat)
    requires 0 < at < |ItemsOf(c)|
    ensures ItemsOf(c)[at - 1].Whole? && ItemsOf(c)[at].Whole?
  {
  }

  lemma OversizedItems(b: TextBlock, max: nat, overlap: nat)
    requires overlap < max && Oversized(b, max)
    ensures BlockItems(b, max, overlap) != []
    ensures forall item | item in BlockItems(b, max, overlap) :: item.Piece?
  {
  }

  lemma LastItemOfOversized(blocks: seq<TextBlock>, max: nat, overlap: nat)
    requires overlap < max && blocks != [] && Oversized(blocks[|blocks| - 1], max)
    ensures var items := InputItems(blocks, max, overlap); items != [] && items[|items| - 1].Piece?
  {
    var k := |blocks| - 1;
    OversizedItems(blocks[k], max, overlap);
    assert blocks[..k + 1] == blocks;
    InputItemsOneMore(blocks, k, max, overlap);
  }

  lemma FirstItemOfOversized(blocks: seq<TextBlock>, max: nat, overlap: nat)
    requires overlap < max && blocks != [] && Oversized(blocks[0], max)
    ensures var items := InputItems(blocks, max, overlap); items != [] && items[0].Piece?
  {
    OversizedItems(blocks[0], max, overlap);
  }

  ghost predicate AllWhole(items: seq<Item>) {
    forall k | 0 <= k < |items| :: items[k].Whole?
  }

  lemma AllWholeConcat(a: seq<Item>, b: seq<Item>)
    ensures AllWhole(a + b) <==> AllWhole(a) && AllWhole(b)
  {
    assert forall k | 0 <= k < |a| :: (a + b)[k] == a[k];
    assert forall k | 0 <= k < |b| :: (a + b)[|a| + k] == b[k];
  }

  lemma {:induction false} SmallItems(blocks: seq<TextBlock>, max: nat, overlap: nat)
    requires overlap < max && forall b | b in blocks :: !Oversized(b, max)
    ensures AllWhole(InputItems(blocks, max, overlap))
    decreases |blocks|
  {
    if blocks != [] {
      assert !Oversized(blocks[0], max) && forall b | b in blocks[1..] :: b in blocks;
      SmallItems(blocks[1..], max, overlap);
      AllWholeConcat(BlockItems(blocks[0], max, overlap), InputItems(blocks[1..], max, overlap));
    }
  }

  lemma {:induction false} ChunksOfWholes(chunks: seq<Chunk>)
    requires AllWhole(Items(chunks))
    ensures forall i | 0 <= i < |chunks| :: chunks[i].Packed?
    decreases |chunks|
  {
    if chunks != [] {
      AllWholeConcat(ItemsOf(chunks[0]), Items(chunks[1..]));
      ChunksOfWholes(chunks[1..]);
      assert forall i | 0 < i < |chunks| :: chunks[i] == chunks[1..][i - 1];
    }
  }

  /** A stretch of blocks between oversized ones, or between one and an end of the input. */
  ghost predicate IsStretch(before: seq<TextBlock>, stretch: seq<TextBlock>, after: seq<TextBlock>, max: nat) {
    && (forall b | b in stretch :: !Oversized(b, max))
    && (before == [] || Oversized(before[|before| - 1], max))
    && (after == [] || Oversized(after[0], max))
  }

  /** The chunks of a stretch: chunks `from` to `to` hold exactly its blocks. */
  lemma StretchHasItsOwnChunks(before: seq<TextBlock>, stretch: seq<TextBlock>, after: seq<TextBlock>,
                               min: nat, max: nat, overlap: nat, chunks: seq<Chunk>) returns (from: nat, to: nat)
    requires overlap < max && IsPacking(before + stretch + after, min, max, overlap, chunks)
    requires IsStretch(before, stretch, after, max)
    ensures from <= to <= |chunks|
    ensures Items(chunks[..from]) == InputItems(before, max, overlap)
    ensures Items(chunks[from..to]) == InputItems(stretch, max, overlap)
    ensures Items(chunks[to..]) == InputItems(after, max, overlap)
  {
    var x, y, z := InputItems(before, max, overlap), InputItems(stretch, max, overlap), InputItems(after, max, overlap);
    InputItemsAppend(before + stretch, after, max, overlap);
    InputItemsAppend(before, stretch, max, overlap);
    if after != [] {
      FirstItemOfOversized(after, max, overlap);
    }
    to := BorderOfChunks(chunks, x + y, z);
    if before != [] {
      LastItemOfOversized(before, max, overlap);
    }
    from := BorderOfChunks(chunks[..to], x, y);
    SliceOfSlice(chunks, from, to);
  }

  lemma ChunksOfStretch(chunks: seq<Chunk>, stretch: seq<TextBlock>, max: nat, overlap: nat)
    requires overlap < max && Items(chunks) == InputItems(stretch, max, overlap)
    requires forall b | b in stretch :: !Oversized(b, max)
    ensures forall i | 0 <= i < |chunks| :: chunks[i].Packed?
    ensures TotalSize(chunks) == |InputText(stretch)|
  {
    SmallItems(stretch, max, overlap);
    ChunksOfWholes(chunks);
    PackedTextSize(chunks, max - overlap);
    ItemsKeepText(stretch, max, overlap);
  }

  /** In any stretch without oversized blocks N chunks mean at least floor(N/2) * min tokens of input. */
  lemma StretchesAreDense(before: seq<TextBlock>, stretch: seq<TextBlock>, after: seq<TextBlock>,
                          min: nat, max: nat, overlap: nat, chunks: seq<Chunk>) returns (from: nat, to: nat)
    requires min <= max && overlap < max && IsPacking(before + stretch + after, min, max, overlap, chunks)
    requires IsStretch(before, stretch, after, max)
    ensures from <= to <= |chunks| && Items(chunks[from..to]) == InputItems(stretch, max, overlap)
    ensures forall i | from <= i < to :: chunks[i].Packed?
    ensures (to - from) / 2 * min <= |InputText(stretch)|
  {
    from, to := StretchHasItsOwnChunks(before, stretch, after, min, max, overlap, chunks);
    ChunksOfStretch(chunks[from..to], stretch, max, overlap);
    assert forall i | from <= i < to :: chunks[i] == chunks[from..to][i - from];
    RunsAreDense(chunks, from, to, min, max);
  }

  // ------------------------------------------------------------------ table splitting

  /** One line of a markdown table, with what the code asks about it. */
  datatype Line = Line(text: string, tokens: nat, blank: bool, separator: bool)

  datatype TableChunk = WholeTable | TablePart(header: seq<Line>, rows: seq<Line>)

  function Tokens(rows: seq<Line>): nat {
    if rows == [] then 0 else Tokens(rows[..|rows| - 1]) + rows[|rows| - 1].tokens
  }

  function NonBlank(rows: seq<Line>): seq<Line> {
    if rows == [] then []
    else NonBlank(rows[..|rows| - 1]) + (if rows[|rows| - 1].blank then [] else [rows[|rows| - 1]])
  }

  /** The first separator below the first line ends the header. */
  ghost predicate HeaderEndsAt(lines: seq<Line>, at: nat) {
    1 <= at < |lines| && lines[at].separator && forall i | 1 <= i < at :: !lines[i].separator
  }

  function RowBudget(header: seq<Line>, maxTokens: int): int {
    Max(1, maxTokens - Tokens(header))
  }

  /** A group of rows a chunk may hold: a single row whatever its size, or rows within the budget. */
  predicate Fits(group: seq<Line>, budget: int) {
    |group| <= 1 || Tokens(group) <= budget
  }

  function Concat(groups: seq<seq<Line>>): seq<Line> {
    if groups == [] then [] else groups[0] + Concat(groups[1..])
  }

  /** Every group fits, and none could have taken the first row of the next. */
  ghost predicate Greedy(groups: seq<seq<Line>>, budget: int)
    decreases |groups|
  {
    groups == [] ||
    (var k := |groups| - 1;
     && Greedy(groups[..k], budget) && groups[k] != [] && Fits(groups[k], budget)
     && (k > 0 ==> Tokens(groups[k - 1]) + groups[k][0].tokens > budget))
  }

  function Parts(header: seq<Line>, groups: seq<seq<Line>>): (r: seq<TableChunk>)
    ensures |r| == |groups|
  {
    seq(|groups|, i requires 0 <= i < |groups| => TablePart(header, groups[i]))
  }

  method FindSeparator(lines: seq<Line>) returns (at: Option<nat>)
    ensures at.Some? ==> HeaderEndsAt(lines, at.value)
    ensures at.None? ==> forall i | 1 <= i < |lines| :: !lines[i].separator
  {
    at := None;
    var i := 1;
    while i < |lines|
      invariant 1 <= i && forall k | 1 <= k < i && k < |lines| :: !lines[k].separator
    {
      if lines[i].separator {
        return Some(i);
      }
      i := i + 1;
    }
  }

  /** The closed groups and the current one, if any, form a greedy split. */
  ghost predicate Grouping(groups: seq<seq<Line>>, current: seq<Line>, budget: int) {
    if current == [] then groups == [] else Greedy(groups + [current], budget)
  }

  /** What the row loop has done with `rows`: every non-blank one is in a closed group or the current one. */
  ghost predicate RowsGrouped(groups: seq<seq<Line>>, current: seq<Line>, rows: seq<Line>, budget: int) {
    Concat(groups) + current == NonBlank(rows) && Grouping(groups, current, budget)
  }

  /** The row loop: closes a group when the next row would overrun a non-empty one. */
  method GroupRows(rows: seq<Line>, budget: int) returns (groups: seq<seq<Line>>)
    ensures Concat(groups) == NonBlank(rows)
    ensures Greedy(groups, budget)
  {
    groups := [];
    var current: seq<Line> := [];
    var currentTokens := 0;
    var i := 0;
    while i < |rows|
      invariant i <= |rows|
      invariant currentTokens == Tokens(current)
      invariant RowsGrouped(groups, current, rows[..i], budget)
    {
      var row := rows[i];
      assert rows[..i + 1] == rows[..i] + [row];
      if row.blank {
        SkipRow(groups, current, rows[..i], row, budget);
      } else {
        PlaceRow(groups, current, rows[..i], row, budget);
        if currentTokens + row.tokens > budget && current != [] {
          groups := groups + [current];
          current, currentTokens := [], 0;
        }
        current := current + [row];
        currentTokens := currentTokens + row.tokens;
      }
      i := i + 1;
    }
    assert rows[..i] == rows;
    if current != [] {
      ConcatAppend(groups, current);
      groups := groups + [current];
    }
  }

  lemma SkipRow(groups: seq<seq<Line>>, current: seq<Line>, rows: seq<Line>, row: Line, budget: int)
    requires RowsGrouped(groups, current, rows, budget) && row.blank
    ensures RowsGrouped(groups, current, rows + [row], budget)
  {
    assert (rows + [row])[..|rows|] == rows;
  }

  lemma TokensOneMore(rows: seq<Line>, row: Line)
    ensures Tokens(rows + [row]) == Tokens(rows) + row.tokens
    ensures NonBlank(rows + [row]) == NonBlank(rows) + (if row.blank then [] else [row])
  {
    assert (rows + [row])[..|rows|] == rows;
  }

  /** Placing a row, in a new group or the current one, keeps the split greedy and loses nothing. */
  lemma PlaceRow(groups: seq<seq<Line>>, current: seq<Line>, rows: seq<Line>, row: Line, budget: int)
    requires RowsGrouped(groups, current, rows, budget) && !row.blank
    ensures Tokens(current + [row]) == Tokens(current) + row.tokens && Tokens([] + [row]) == row.tokens
    ensures if Tokens(current) + row.tokens > budget && current != []
            then RowsGrouped(groups + [current], [] + [row], rows + [row], budget)
            else RowsGrouped(groups, current + [row], rows + [row], budget)
  {
    TokensOneMore(rows, row);
    TokensOneMore(current, row);
    TokensOneMore([], row);
    if Tokens(current) + row.tokens > budget && current != [] {
      PlaceInNew(groups, current, row, budget);
    } else {
      PlaceInCurrent(groups, current, row, budget);
    }
  }

  lemma PlaceInNew(groups: seq<seq<Line>>, current: seq<Line>, row: Line, budget: int)
    requires Grouping(groups, current, budget) && current != [] && Tokens(current) + row.tokens > budget
    ensures Grouping(groups + [current], [] + [row], budget)
    ensures Concat(groups + [current]) + ([] + [row]) == Concat(groups) + current + [row]
  {
    ConcatAppend(groups, current);
    GreedyAppend(groups + [current], [] + [row], budget);
  }

  lemma PlaceInCurrent(groups: seq<seq<Line>>, current: seq<Line>, row: Line, budget: int)
    requires Grouping(groups, current, budget) && (current == [] || Tokens(current) + row.tokens <= budget)
    ensures Grouping(groups, current + [row], budget)
    ensures Concat(groups) + (current + [row]) == Concat(groups) + current + [row]
  {
    TokensOneMore(current, row);
    if current != [] {
      GreedyGrow(groups, current, row, budget);
    } else {
      GreedyAppend(groups, current + [row], budget);
    }
  }

  lemma GreedyAppend(groups: seq<seq<Line>>, group: seq<Line>, budget: int)
    requires Greedy(groups, budget) && group != [] && Fits(group, budget)
    requires groups != [] ==> Tokens(groups[|groups| - 1]) + group[0].tokens > budget
    ensures Greedy(groups + [group], budget)
  {
    assert (groups + [group])[..|groups|] == groups;
  }

  lemma GreedyGrow(groups: seq<seq<Line>>, current: seq<Line>, row: Line, budget: int)
    requires current != [] && Greedy(groups + [current], budget) && Fits(current + [row], budget)
    ensures Greedy(groups + [current + [row]], budget)
  {
    assert (groups + [current])[..|groups|] == groups;
    GreedyAppend(groups, current + [row], budget);
  }

  lemma {:induction false} GreedyWithoutFirst(groups: seq<seq<Line>>, budget: int)
    requires groups != [] && Greedy(groups, budget)
    ensures Greedy(groups[1..], budget) && groups[0] != [] && Fits(groups[0], budget)
    ensures |groups| > 1 ==> groups[1] != [] && Tokens(groups[0]) + groups[1][0].tokens > budget
    decreases |groups|
  {
    if |groups| > 1 {
      var k := |groups| - 1;
      GreedyWithoutFirst(groups[..k], budget);
      assert groups[1..][..k - 1] == groups[..k][1..];
    }
  }

  lemma {:induction false} GreedyGroupsFit(groups: seq<seq<Line>>, budget: int)
    requires Greedy(groups, budget)
    ensures forall g | g in groups :: g != [] && Fits(g, budget)
    decreases |groups|
  {
    if groups != [] {
      GreedyWithoutFirst(groups, budget);
      GreedyGroupsFit(groups[1..], budget);
      assert groups == [groups[0]] + groups[1..];
    }
  }

  lemma {:induction false} ConcatAppend(groups: seq<seq<Line>>, last: seq<Line>)
    ensures Concat(groups + [last]) == Concat(groups) + last
  {
    if groups == [] {
      assert (groups + [last])[1..] == [];
    } else {
      assert (groups + [last])[1..] == groups[1..] + [last];
      ConcatAppend(groups[1..], last);
    }
  }

  /** A header with one row, whatever its size, or with rows that fit the limit or, past it, one token of rows. */
  predicate WithinLimit(header: seq<Line>, rows: seq<Line>, maxTokens: int) {
    |rows| <= 1 || Tokens(header) + Tokens(rows) <= Max(maxTokens, Tokens(header) + 1)
  }

  /** The first row of `next` did not fit into `c`. */
  predicate RowDidNotFit(c: TableChunk, next: TableChunk, maxTokens: int) {
    && c.TablePart? && next.TablePart? && next.rows != []
    && Tokens(c.header) + Tokens(c.rows) + next.rows[0].tokens > Max(maxTokens, Tokens(c.header) + 1)
  }

  predicate IsPart(c: TableChunk, header: seq<Line>, maxTokens: int) {
    c.TablePart? && c.header == header && c.rows != [] && WithinLimit(header, c.rows, maxTokens)
  }

  /** Parts under the header within the limit, each closed only because the next row did not fit. */
  ghost predicate AreParts(header: seq<Line>, chunks: seq<TableChunk>, maxTokens: int)
    decreases |chunks|
  {
    chunks == [] ||
    (var k := |chunks| - 1;
     && AreParts(header, chunks[..k], maxTokens) && IsPart(chunks[k], header, maxTokens)
     && (k > 0 ==> RowDidNotFit(chunks[k - 1], chunks[k], maxTokens)))
  }

  /** What `SplitTableWithHeader` returns for a table whose header ends at `at`. */
  ghost predicate IsTableSplit(lines: seq<Line>, maxTokens: int, at: nat, chunks: seq<TableChunk>)
    requires HeaderEndsAt(lines, at)
  {
    var header, rows := lines[..at + 1], NonBlank(lines[at + 1..]);
    if rows == [] then chunks == [WholeTable] else ChunkRows(chunks) == rows && AreParts(header, chunks, maxTokens)
  }

  /** What this says of chunk `i` and of its neighbour before it. */
  lemma {:induction false} PartAt(header: seq<Line>, chunks: seq<TableChunk>, maxTokens: int, i: nat)
    requires AreParts(header, chunks, maxTokens) && i < |chunks|
    ensures IsPart(chunks[i], header, maxTokens)
    ensures i > 0 ==> RowDidNotFit(chunks[i - 1], chunks[i], maxTokens)
    decreases |chunks|
  {
    if i < |chunks| - 1 {
      PartAt(header, chunks[..|chunks| - 1], maxTokens, i);
    }
  }

  /** Greedy groups under the row budget make parts that fit the token limit and close only for lack of room. */
  lemma {:induction false} GreedyMakesParts(header: seq<Line>, groups: seq<seq<Line>>, maxTokens: int)
    requires Greedy(groups, RowBudget(header, maxTokens))
    ensures AreParts(header, Parts(header, groups), maxTokens)
    decreases |groups|
  {
    if groups != [] {
      var k := |groups| - 1;
      GreedyMakesParts(header, groups[..k], maxTokens);
      LimitIsBudget(header, groups[k], maxTokens);
      assert Parts(header, groups)[..k] == Parts(header, groups[..k]);
    }
  }

  function RowsOf(c: TableChunk): seq<Line> {
    if c.TablePart? then c.rows else []
  }

  function Groups(chunks: seq<TableChunk>): (groups: seq<seq<Line>>)
    ensures |groups| == |chunks| && forall i | 0 <= i < |chunks| :: groups[i] == RowsOf(chunks[i])
  {
    seq(|chunks|, i requires 0 <= i < |chunks| => RowsOf(chunks[i]))
  }

  lemma LimitIsBudget(header: seq<Line>, rows: seq<Line>, maxTokens: int)
    ensures WithinLimit(header, rows, maxTokens) <==> Fits(rows, RowBudget(header, maxTokens))
  {
  }

  lemma {:induction false} PartsAreGreedy(header: seq<Line>, chunks: seq<TableChunk>, maxTokens: int)
    requires AreParts(header, chunks, maxTokens)
    ensures Greedy(Groups(chunks), RowBudget(header, maxTokens))
    decreases |chunks|
  {
    if chunks != [] {
      var k := |chunks| - 1;
      PartsAreGreedy(header, chunks[..k], maxTokens);
      assert Groups(chunks)[..k] == Groups(chunks[..k]);
      LastPartIsGreedy(header, chunks, maxTokens);
    }
  }

  lemma LastPartIsGreedy(header: seq<Line>, chunks: seq<TableChunk>, maxTokens: int)
    requires chunks != [] && AreParts(header, chunks, maxTokens)
    ensures var k, groups, budget := |chunks| - 1, Groups(chunks), RowBudget(header, maxTokens);
            && groups[k] != [] && Fits(groups[k], budget)
            && (k > 0 ==> Tokens(groups[k - 1]) + groups[k][0].tokens > budget)
  {
    var k := |chunks| - 1;
    LimitIsBudget(header, chunks[k].rows, maxTokens);
    if k > 0 {
      PartAt(header, chunks, maxTokens, k - 1);
    }
  }

  lemma {:induction false} GroupsHoldRows(chunks: seq<TableChunk>)
    ensures Concat(Groups(chunks)) == ChunkRows(chunks)
    decreases |chunks|
  {
    if chunks != [] {
      GroupsHoldRows(chunks[1..]);
      assert Groups(chunks)[1..] == Groups(chunks[1..]);
    }
  }

  lemma HeaderEndsOnce(lines: seq<Line>, a: nat, b: nat)
    requires HeaderEndsAt(lines, a) && HeaderEndsAt(lines, b)
    ensures a == b
  {
  }

  method SplitTableWithHeader(lines: seq<Line>, maxTokens: int) returns (chunks: seq<TableChunk>)
    ensures (forall i | 1 <= i < |lines| :: !lines[i].separator) ==> chunks == [WholeTable]
    ensures forall at | HeaderEndsAt(lines, at) :: IsTableSplit(lines, maxTokens, at, chunks)
    ensures forall c | c in chunks && c.TablePart? && |c.rows| > 1 ::
              Tokens(c.header) + Tokens(c.rows) <= Max(maxTokens, Tokens(c.header) + 1)
  {
    if |lines| < 2 {
      return [WholeTable];
    }
    var separator := FindSeparator(lines);
    if separator.None? {
      return [WholeTable];
    }
    chunks := SplitRows(lines[..separator.value + 1], lines[separator.value + 1..], maxTokens);
    forall at | HeaderEndsAt(lines, at) ensures IsTableSplit(lines, maxTokens, at, chunks) {
      HeaderEndsOnce(lines, at, separator.value);
    }
  }

  /** The row loop with its result put under the header; a table without data rows stays whole. */
  method SplitRows(header: seq<Line>, dataRows: seq<Line>, maxTokens: int) returns (chunks: seq<TableChunk>)
    ensures if NonBlank(dataRows) == [] then chunks == [WholeTable]
            else ChunkRows(chunks) == NonBlank(dataRows) && AreParts(header, chunks, maxTokens)
    ensures forall c | c in chunks && c.TablePart? && |c.rows| > 1 ::
              Tokens(c.header) + Tokens(c.rows) <= Max(maxTokens, Tokens(c.header) + 1)
  {
    var groups := GroupRows(dataRows, RowBudget(header, maxTokens));
    GroupsUnderHeader(header, dataRows, groups, maxTokens);
    chunks := RepeatHeader(header, groups);
    if chunks == [] {
      chunks := [WholeTable];
    }
  }

  lemma GroupsUnderHeader(header: seq<Line>, dataRows: seq<Line>, groups: seq<seq<Line>>, maxTokens: int)
    requires Greedy(groups, RowBudget(header, maxTokens)) && Concat(groups) == NonBlank(dataRows)
    ensures groups == [] <==> NonBlank(dataRows) == []
    ensures ChunkRows(Parts(header, groups)) == NonBlank(dataRows) && AreParts(header, Parts(header, groups), maxTokens)
    ensures forall c | c in Parts(header, groups) && c.TablePart? && |c.rows| > 1 ::
              Tokens(c.header) + Tokens(c.rows) <= Max(maxTokens, Tokens(c.header) + 1)
  {
    GreedyMakesParts(header, groups, maxTokens);
    PartsRows(header, groups);
    GreedyGroupsFit(groups, RowBudget(header, maxTokens));
    ConcatEmpty(groups);
    PartsWithinLimit(header, Parts(header, groups), maxTokens);
  }

  method RepeatHeader(header: seq<Line>, groups: seq<seq<Line>>) returns (chunks: seq<TableChunk>)
    ensures chunks == Parts(header, groups)
  {
    chunks := [];
    var i := 0;
    while i < |groups|
      invariant i == |chunks| <= |groups|
      invariant forall k | 0 <= k < i :: chunks[k] == TablePart(header, groups[k])
    {
      chunks := chunks + [TablePart(header, groups[i])];
      i := i + 1;
    }
  }

  lemma ConcatEmpty(groups: seq<seq<Line>>)
    requires forall g | g in groups :: g != []
    ensures Concat(groups) == [] <==> groups == []
  {
    if groups != [] {
      assert groups[0] in groups;
    }
  }

  lemma {:induction false} TokensAppend(a: seq<Line>, b: seq<Line>)
    ensures Tokens(a + b) == Tokens(a) + Tokens(b)
    decreases |b|
  {
    if b == [] {
      assert a + b == a;
    } else {
      assert (a + b)[..|a + b| - 1] == a + b[..|b| - 1];
      TokensAppend(a, b[..|b| - 1]);
    }
  }

  /** A stretch that covers a group and the row behind it weighs at least as much as they do. */
  lemma TokensWithin(rows: seq<Line>, j: nat, i: nat, e: nat, f: nat)
    requires j <= i <= e < f <= |rows|
    ensures Tokens(rows[j..f]) >= Tokens(rows[i..e]) + rows[e].tokens
  {
    assert rows[j..f] == rows[j..i] + (rows[i..e] + ([rows[e]] + rows[e + 1..f]));
    TokensAppend(rows[j..i], rows[i..e] + ([rows[e]] + rows[e + 1..f]));
    TokensAppend(rows[i..e], [rows[e]] + rows[e + 1..f]);
    TokensAppend([rows[e]], rows[e + 1..f]);
    assert Tokens([rows[e]]) == rows[e].tokens by { assert [rows[e]][..0] == []; }
  }

  /**
   No other split into groups that fit uses fewer groups: a greedy split of a suffix of the rows another
   split still has to cover stays ahead of it group by group.
   */
  lemma {:induction false} GreedyStaysAhead(rows: seq<Line>, i: nat, greedy: seq<seq<Line>>, j: nat, other: seq<seq<Line>>, budget: int)
    requires j <= i <= |rows|
    requires Greedy(greedy, budget) && Concat(greedy) == rows[i..]
    requires Concat(other) == rows[j..] && forall g | g in other :: Fits(g, budget)
    ensures |greedy| <= |other|
    decreases |greedy|
  {
    if greedy != [] {
      GreedyWithoutFirst(greedy, budget);
      var e := i + |greedy[0]|;
      ConcatFirst(rows, i, greedy);
      assert other != [] by { assert |rows[j..]| > 0; }
      var f := j + |other[0]|;
      ConcatFirst(rows, j, other);
      if f > e {
        assert other[0] in other;
        assert |greedy| > 1 && greedy[1][0] == rows[e] by {
          assert |rows[e..]| > 0;
          assert Concat(greedy[1..])[0] == greedy[1][0];
        }
        TokensWithin(rows, j, i, e, f);
      }
      GreedyStaysAhead(rows, e, greedy[1..], f, other[1..], budget);
    }
  }

  /** The first of the groups that cover the rows from `i` on, and what the others cover. */
  lemma ConcatFirst(rows: seq<Line>, i: nat, groups: seq<seq<Line>>)
    requires i <= |rows| && groups != [] && Concat(groups) == rows[i..]
    ensures var e := i + |groups[0]|; e <= |rows| && rows[i..e] == groups[0] && Concat(groups[1..]) == rows[e..]
  {
    assert |rows[i..]| == |groups[0]| + |Concat(groups[1..])|;
    assert rows[i..][..|groups[0]|] == groups[0];
    assert rows[i..][|groups[0]|..] == Concat(groups[1..]);
  }

  /** Data rows once and in order under the repeated header, and no chunk of several rows beyond the limit. */
  lemma TableSplitIsLossless(lines: seq<Line>, maxTokens: int, at: nat, chunks: seq<TableChunk>)
    requires HeaderEndsAt(lines, at) && IsTableSplit(lines, maxTokens, at, chunks)
    requires NonBlank(lines[at + 1..]) != []
    ensures ChunkRows(chunks) == NonBlank(lines[at + 1..])
    ensures forall c | c in chunks :: c.TablePart? && c.header == lines[..at + 1] && c.rows != []
              && (|c.rows| == 1 || Tokens(c.header) + Tokens(c.rows) <= Max(maxTokens, Tokens(c.header) + 1))
  {
    PartsWithinLimit(lines[..at + 1], chunks, maxTokens);
  }

  /** No split of the data rows in order into single rows and groups within the limit takes fewer chunks. */
  lemma TableSplitIsMinimal(lines: seq<Line>, maxTokens: int, at: nat, chunks: seq<TableChunk>, other: seq<seq<Line>>)
    requires HeaderEndsAt(lines, at) && IsTableSplit(lines, maxTokens, at, chunks)
    requires NonBlank(lines[at + 1..]) != [] && Concat(other) == NonBlank(lines[at + 1..])
    requires forall g | g in other :: |g| <= 1 || Tokens(lines[..at + 1]) + Tokens(g) <= Max(maxTokens, Tokens(lines[..at + 1]) + 1)
    ensures |chunks| <= |other|
  {
    NoSplitIsShorter(lines[..at + 1], NonBlank(lines[at + 1..]), chunks, other, maxTokens);
  }

  /** Every non-blank data row is in the chunks as often as in the table, and nothing else is. */
  lemma SplitKeepsEveryRow(lines: seq<Line>, maxTokens: int, at: nat, chunks: seq<TableChunk>, row: Line)
    requires HeaderEndsAt(lines, at) && IsTableSplit(lines, maxTokens, at, chunks)
    requires NonBlank(lines[at + 1..]) != []
    ensures multiset(ChunkRows(chunks))[row] == if row.blank then 0 else multiset(lines[at + 1..])[row]
  {
    NonBlankKeepsRow(lines[at + 1..], row);
  }

  lemma PartsWithinLimit(header: seq<Line>, chunks: seq<TableChunk>, maxTokens: int)
    requires AreParts(header, chunks, maxTokens)
    ensures forall c | c in chunks :: c.TablePart? && c.header == header && c.rows != []
              && (|c.rows| == 1 || Tokens(c.header) + Tokens(c.rows) <= Max(maxTokens, Tokens(c.header) + 1))
  {
    forall c | c in chunks ensures IsPart(c, header, maxTokens) {
      var i :| 0 <= i < |chunks| && chunks[i] == c;
      PartAt(header, chunks, maxTokens, i);
    }
  }

  lemma NoSplitIsShorter(header: seq<Line>, rows: seq<Line>, chunks: seq<TableChunk>, other: seq<seq<Line>>, maxTokens: int)
    requires AreParts(header, chunks, maxTokens) && ChunkRows(chunks) == rows == Concat(other)
    requires forall g | g in other :: WithinLimit(header, g, maxTokens)
    ensures |chunks| <= |other|
  {
    assert rows[0..] == rows;
    PartsAreGreedy(header, chunks, maxTokens);
    GroupsHoldRows(chunks);
    forall g | g in other ensures Fits(g, RowBudget(header, maxTokens)) {
      LimitIsBudget(header, g, maxTokens);
    }
    GreedyStaysAhead(rows, 0, Groups(chunks), 0, other, RowBudget(header, maxTokens));
  }

  lemma OneMoreOf(rows: seq<Line>, last: Line, row: Line)
    ensures multiset(rows + [last])[row] == multiset(rows)[row] + if row == last then 1 else 0
  {
  }

  lemma {:induction false} NonBlankKeepsRow(rows: seq<Line>, row: Line)
    ensures multiset(NonBlank(rows))[row] == if row.blank then 0 else multiset(rows)[row]
    decreases |rows|
  {
    if rows != [] {
      var front, last := rows[..|rows| - 1], rows[|rows| - 1];
      NonBlankKeepsRow(front, row);
      assert rows == front + [last];
      TokensOneMore(front, last);
      OneMoreOf(front, last, row);
      OneMoreOf(NonBlank(front), last, row);
    }
  }

  function ChunkRows(chunks: seq<TableChunk>): seq<Line> {
    if chunks == [] then []
    else RowsOf(chunks[0]) + ChunkRows(chunks[1..])
  }

  lemma {:induction false} PartsRows(header: seq<Line>, groups: seq<seq<Line>>)
    ensures ChunkRows(Parts(header, groups)) == Concat(groups)
    decreases |groups|
  {
    if groups != [] {
      assert Parts(header, groups)[1..] == Parts(header, groups[1..]);
      PartsRows(header, groups[1..]);
    }
  }

  // -------------------------------------------------------------------- whole documents

  datatype Section = Section(text: seq<TextBlock>, tables: seq<seq<Line>>)

  datatype SectionChunks = SectionChunks(text: seq<Chunk>, tables: seq<seq<TableChunk>>)

  ghost predicate IsTableChunking(lines: seq<Line>, tableMax: int, chunks: seq<TableChunk>) {
    if Tokens(lines) <= tableMax || forall i | 1 <= i < |lines| :: !lines[i].separator
    then chunks == [WholeTable]
    else forall at | HeaderEndsAt(lines, at) :: IsTableSplit(lines, tableMax, at, chunks)
  }

  ghost predicate IsChunking(s: Section, min: nat, max: nat, overlap: nat, tableMax: int, c: SectionChunks)
    requires overlap < max
  {
    && IsPacking(s.text, min, max, overlap, c.text) && OutputText(c.text, max - overlap) == InputText(s.text)
    && |c.tables| == |s.tables|
    && forall i | 0 <= i < |s.tables| :: IsTableChunking(s.tables[i], tableMax, c.tables[i])
  }

  method ChunkTables(tables: seq<seq<Line>>, tableMax: int) returns (chunks: seq<seq<TableChunk>>)
    ensures |chunks| == |tables|
    ensures forall i | 0 <= i < |tables| :: IsTableChunking(tables[i], tableMax, chunks[i])
  {
    chunks := [];
    var i := 0;
    while i < |tables|
      invariant i == |chunks| <= |tables|
      invariant forall k | 0 <= k < i :: IsTableChunking(tables[k], tableMax, chunks[k])
    {
      var parts := [WholeTable];
      if Tokens(tables[i]) > tableMax {
        parts := SplitTableWithHeader(tables[i], tableMax);
      }
      chunks := chunks + [parts];
      i := i + 1;
    }
  }

  method ChunkSection(s: Section, min: nat, max: nat, overlap: nat, tableMax: int) returns (c: SectionChunks)
    requires 0 < min <= max && overlap < max
    ensures IsChunking(s, min, max, overlap, tableMax, c)
  {
    var text := SplitTextBlocks(s.text, min, max, overlap);
    var tables := ChunkTables(s.tables, tableMax);
    c := SectionChunks(text, tables);
  }

  /** `chunk_sections_for_rag`: the four limit checks, then every section on its own. */
  method ChunkSections(sections: seq<Section>, min: int, max: int, overlap: int, tableMax: int)
    returns (r: Result<seq<SectionChunks>>)
    ensures r.Ok? <==> 0 < min <= max && 0 <= overlap < max
    ensures r.Ok? ==> AllChunked(sections, min, max, overlap, tableMax, r.value)
  {
    if min <= 0 || max <= 0 {
      return Error("min_tokens and max_tokens must be positive");
    }
    if min > max {
      return Error("min_tokens must be less than or equal to max_tokens");
    }
    if overlap < 0 {
      return Error("overlap_tokens must be non-negative");
    }
    if overlap >= max {
      return Error("overlap_tokens must be less than max_tokens");
    }
    var chunks := ChunkAll(sections, min, max, overlap, tableMax);
    r := Ok(chunks);
  }

  ghost predicate AllChunked(sections: seq<Section>, min: nat, max: nat, overlap: nat, tableMax: int, chunks: seq<SectionChunks>)
    requires overlap < max
  {
    |chunks| == |sections| && forall i | 0 <= i < |sections| :: IsChunking(sections[i], min, max, overlap, tableMax, chunks[i])
  }

  lemma OneMoreSection(sections: seq<Section>, s: Section, min: nat, max: nat, overlap: nat, tableMax: int,
                       chunks: seq<SectionChunks>, c: SectionChunks)
    requires overlap < max && AllChunked(sections, min, max, overlap, tableMax, chunks)
    requires IsChunking(s, min, max, overlap, tableMax, c)
    ensures AllChunked(sections + [s], min, max, overlap, tableMax, chunks + [c])
  {
  }

  method ChunkAll(sections: seq<Section>, min: nat, max: nat, overlap: nat, tableMax: int) returns (chunks: seq<SectionChunks>)
    requires 0 < min <= max && overlap < max
    ensures AllChunked(sections, min, max, overlap, tableMax, chunks)
  {
    chunks := [];
    var i := 0;
    while i < |sections|
      invariant i <= |sections|
      invariant AllChunked(sections[..i], min, max, overlap, tableMax, chunks)
    {
      var sectionChunks := ChunkSection(sections[i], min, max, overlap, tableMax);
      assert sections[..i + 1] == sections[..i] + [sections[i]];
      OneMoreSection(sections[..i], sections[i], min, max, overlap, tableMax, chunks, sectionChunks);
      chunks := chunks + [sectionChunks];
      i := i + 1;
    }
    assert sections[..i] == sections;
  }
}
