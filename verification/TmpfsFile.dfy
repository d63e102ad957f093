/** A tmpfs file as the kernel stores it, a table of pages allocated on first write, next to the byte sequence it stands
    for. */
module TmpfsFile {
  import opened Basics

  const PAGE_SIZE: nat := 4096
  const DIRECT_PAGES: nat := 64
  const MAX_PAGES: nat := 576
  const MAX_FILE_SIZE: nat := MAX_PAGES * PAGE_SIZE

  type Page = seq<int>

  /** A hole reads as zeros. */
  function ByteAt(pages: map<nat, Page>, i: nat): int {
    var p := i / PAGE_SIZE;
    if p in pages && i % PAGE_SIZE < |pages[p]| then pages[p][i % PAGE_SIZE] else 0
  }

  function Flatten(size: nat, pages: map<nat, Page>): (f: seq<int>)
    ensures |f| == size && forall i :: 0 <= i < size ==> f[i] == ByteAt(pages, i)
  {
    seq(size, i requires 0 <= i => ByteAt(pages, i))
  }

  /** Writing `d` at `off`: bytes outside stay, a gap before `off` reads as zeros. */
  function FlatWrite(f: seq<int>, off: nat, d: seq<int>): (r: seq<int>)
    ensures |r| == if off + |d| > |f| then off + |d| else |f|
    ensures forall i :: 0 <= i < |r| ==>
      r[i] == if off <= i < off + |d| then d[i - off] else if i < |f| then f[i] else 0
  {
    seq(if off + |d| > |f| then off + |d| else |f|,
        i requires 0 <= i => if off <= i < off + |d| then d[i - off] else if i < |f| then f[i] else 0)
  }

  function FlatTruncate(f: seq<int>, n: nat): (r: seq<int>)
    ensures |r| == n && forall i :: 0 <= i < n ==> r[i] == if i < |f| then f[i] else 0
  {
    seq(n, i requires 0 <= i => if i < |f| then f[i] else 0)
  }

  /** Two adjacent writes are one. */
  lemma FlatWriteJoin(f: seq<int>, off: nat, d: seq<int>, e: seq<int>)
    ensures FlatWrite(FlatWrite(f, off, d), off + |d|, e) == FlatWrite(f, off, d + e)
  {
    var g := FlatWrite(f, off, d);
    var h := FlatWrite(g, off + |d|, e);
    var one := FlatWrite(f, off, d + e);
    forall i | 0 <= i < |h| ensures h[i] == one[i] {
    }
  }

  lemma Pieces(data: seq<int>, n: nat, chunk: nat, more: nat)
    requires n + chunk <= |data| && more <= chunk
    ensures data[n..n + chunk][..more] == data[n..n + more] && data[..n] + data[n..n + more] == data[..n + more]
  {
  }

  /** `g` is `f` with the first `n` bytes of `data` written at `off`. */
  ghost predicate IsWrite(f: seq<int>, g: seq<int>, off: nat, data: seq<int>, n: int) {
    0 <= n <= |data| && g == FlatWrite(f, off, data[..n])
  }

  /** The same, or nothing was tried. */
  ghost predicate Wrote(f: seq<int>, g: seq<int>, off: nat, data: seq<int>, n: nat) {
    if n == 0 then g == f else IsWrite(f, g, off, data, n)
  }

  /** The piece of `data` after the first `n` bytes, cut to `more`, joins what was written before. */
  lemma NextPiece(
    f: seq<int>, g: seq<int>, h: seq<int>, off: nat, data: seq<int>, n: nat, next: nat, piece: seq<int>)
    requires n + |piece| <= |data| && piece == data[n..n + |piece|] && n <= next <= n + |piece|
    requires Wrote(f, g, off, data, n) && IsWrite(g, h, off + n, piece, next - n)
    ensures IsWrite(f, h, off, data, next)
  {
    Pieces(data, n, |piece|, next - n);
    if n > 0 {
      FlatWriteJoin(f, off, data[..n], data[n..next]);
    }
  }

  lemma NothingWritten(f: seq<int>, off: nat, data: seq<int>)
    ensures FlatWrite(f, off, data[..0]) == f <==> off <= |f|
  {
    if off <= |f| {
      assert FlatWrite(f, off, data[..0]) == f;
    }
  }

  /** `after` is `before` without the pages from `from` to `to`. */
  ghost predicate Without(before: map<nat, Page>, after: map<nat, Page>, from: nat, to: nat) {
    && (forall q :: q in after <==> q in before && (q < from || q >= to))
    && (forall q :: q in after ==> after[q] == before[q])
  }

  lemma WithoutNext(before: map<nat, Page>, now: map<nat, Page>, from: nat, p: nat)
    requires from <= p && Without(before, now, from, p)
    ensures Without(before, if p in now then now - {p} else now, from, p + 1)
  {
  }

  lemma OneLess(pages: map<nat, Page>, p: nat)
    ensures |pages - {p}| == |pages| - if p in pages then 1 else 0
  {
    assert (pages - {p}).Keys == pages.Keys - {p};
  }

  lemma OneMore(pages: map<nat, Page>, p: nat, page: Page)
    ensures |pages[p := page]| == |pages| + if p in pages then 0 else 1
  {
    assert pages[p := page].Keys == pages.Keys + {p};
  }

  lemma HoleFilled(pages: map<nat, Page>, p: nat, page: Page)
    requires p !in pages && forall k :: 0 <= k < |page| ==> page[k] == 0
    ensures forall i: nat :: ByteAt(pages[p := page], i) == ByteAt(pages, i)
  {
  }

  class File {
    var size: nat
    var pages: map<nat, Page>
    /** The table that holds the pages from DIRECT_PAGES on is there; it takes a frame of its own. */
    var indirect: bool
    /** Frames the allocator can still hand out. */
    var frames: nat

    ghost predicate Valid()
      reads this
    {
      && size <= MAX_FILE_SIZE
      && PagesValid()
      && (forall i: nat :: i >= size ==> ByteAt(pages, i) == 0)
    }

    ghost predicate PagesValid()
      reads this
    {
      forall p :: p in pages ==> p < MAX_PAGES && |pages[p]| == PAGE_SIZE && (p >= DIRECT_PAGES ==> indirect)
    }

    /** Every frame there is: handed out to this file or not. */
    function AllFrames(): nat
      reads this
    {
      frames + |pages| + if indirect then 1 else 0
    }

    function Flat(): seq<int>
      reads this
    {
      Flatten(size, pages)
    }

    /** Frames the page at `p` still needs: none, its own, or its own and the indirect table's. */
    function Needs(p: nat): nat
      reads this
    {
      if p in pages then 0 else if p < DIRECT_PAGES || indirect then 1 else 2
    }

    /** The frames left are too few for the page of the byte at `offset`. */
    predicate NoRoomAt(offset: nat)
      reads this
    {
      frames < Needs(offset / PAGE_SIZE)
    }

    constructor (frames: nat)
      ensures Valid() && Flat() == [] && size == 0 && pages == map[] && !indirect && this.frames == frames
    {
      size, pages, indirect, this.frames := 0, map[], false, frames;
    }

    /** The page at `p`, allocated zeroed when it is a hole. With one frame left for the first page behind the direct
        ones, the indirect table takes it and the call fails all the same. */
    method PageAtAlloc(p: nat) returns (ok: bool)
      requires PagesValid()
      modifies this`pages, this`frames, this`indirect
      ensures PagesValid() && AllFrames() == old(AllFrames())
      ensures ok <==> p < MAX_PAGES && old(Needs(p)) <= old(frames)
      ensures ok ==> pages.Keys == old(pages.Keys) + {p} && frames == old(frames) - old(Needs(p))
      ensures !ok ==> pages == old(pages) && (p < MAX_PAGES ==> frames == 0)
      ensures forall i: nat :: ByteAt(pages, i) == old(ByteAt(pages, i))
    {
      if p in pages {
        return true;
      }
      if p >= MAX_PAGES {
        return false;
      }
      if p >= DIRECT_PAGES && !indirect {
        if frames == 0 {
          return false;
        }
        frames, indirect := frames - 1, true;
      }
      if frames == 0 {
        return false;
      }
      frames := frames - 1;
      var page := seq(PAGE_SIZE, _ => 0);
      OneMore(pages, p, page);
      HoleFilled(pages, p, page);
      pages := pages[p := page];
      ok := true;
    }

    /** The part of a write that lies in one page. */
    method WritePart(p: nat, po: nat, part: seq<int>) returns (ok: bool)
      requires PagesValid() && p < MAX_PAGES && po + |part| <= PAGE_SIZE
      modifies this`pages, this`frames, this`indirect
      ensures PagesValid() && AllFrames() == old(AllFrames())
      ensures ok <==> old(Needs(p)) <= old(frames)
      ensures !ok ==> frames == 0 && forall i: nat :: ByteAt(pages, i) == old(ByteAt(pages, i))
      ensures ok ==>
        var pos := p * PAGE_SIZE + po;
        forall i: nat :: ByteAt(pages, i) == if pos <= i < pos + |part| then part[i - pos] else old(ByteAt(pages, i))
    {
      ok := PageAtAlloc(p);
      if ok {
        ghost var before := pages;
        var page := pages[p][..po] + part + pages[p][po + |part|..];
        OneMore(pages, p, page);
        pages := pages[p := page];
        ChunkCopied(before, pages, p, po, part);
      }
    }

    /** Page-by-page write. What was accepted is in the file as one flat write of a prefix of the data; the prefix is
        short only at the size limit or when frames run out. */
    method Write(offset: nat, data: seq<int>) returns (n: int)
      requires Valid()
      modifies this
      ensures Valid()
      ensures offset >= MAX_FILE_SIZE ==> n == -1 && Flat() == old(Flat())
      ensures offset < MAX_FILE_SIZE ==>
        0 <= n <= Min(|data|, MAX_FILE_SIZE - offset) && IsWrite(old(Flat()), Flat(), offset, data, n)
      ensures offset < MAX_FILE_SIZE && n < Min(|data|, MAX_FILE_SIZE - offset) ==> frames == 0
      ensures offset < MAX_FILE_SIZE && data != [] ==> (n == 0 <==> old(NoRoomAt(offset)))
      ensures AllFrames() == old(AllFrames())
    {
      if offset >= MAX_FILE_SIZE {
        return -1;
      }
      var toWrite := Min(|data|, MAX_FILE_SIZE - offset);
      var src := 0;
      while src < toWrite
        invariant src <= toWrite && size == old(size) && (src > 0 ==> !old(NoRoomAt(offset)))
        invariant src == 0 ==> pages == old(pages) && frames == old(frames) && indirect == old(indirect)
        invariant PagesValid() && AllFrames() == old(AllFrames())
        invariant forall i: nat ::
          ByteAt(pages, i) == if offset <= i < offset + src then data[i - offset] else old(ByteAt(pages, i))
      {
        var pos := offset + src;
        var p, po := pos / PAGE_SIZE, pos % PAGE_SIZE;
        var chunk := Min(toWrite - src, PAGE_SIZE - po);
        var ok := WritePart(p, po, data[src..src + chunk]);
        if !ok {
          break;
        }
        src := src + chunk;
      }
      if offset + src > size {
        size := offset + src;
      }
      WrittenFlat(old(size), old(pages), size, pages, offset, data[..src]);
      n := src;
    }

    /** One more piece of at most a page. */
    method WritePiece(offset: nat, data: seq<int>, n: nat, ghost was: seq<int>) returns (next: nat)
      requires Valid() && n <= |data| && offset + n < MAX_FILE_SIZE && Wrote(was, Flat(), offset, data, n)
      modifies this
      ensures Valid() && n <= next <= n + Min(|data| - n, PAGE_SIZE) && offset + next <= MAX_FILE_SIZE
      ensures IsWrite(was, Flat(), offset, data, next)
      ensures next < n + Min(|data| - n, PAGE_SIZE) ==> frames == 0 || offset + next == MAX_FILE_SIZE
      ensures n < |data| ==> (next == n <==> old(NoRoomAt(offset + n)))
      ensures AllFrames() == old(AllFrames())
    {
      var chunk := Min(|data| - n, PAGE_SIZE);
      var pos, piece := offset + n, data[n..n + chunk];
      ghost var before := Flat();
      var more := Write(pos, piece);
      next := n + more;
      NextPiece(was, before, Flat(), offset, data, n, next, piece);
    }

    /** pwrite(2), which hands the data down in pieces of at most a page. An empty write is answered without looking at
        the file. What is reported is in the file as one flat write of that prefix, and a write that is refused leaves
        the file alone. One that reports 0 although bytes were asked for changes the file exactly when it starts beyond
        the end: no frame was left for the first piece, and the gap before it is in the file all the same. */
    method Pwrite(offset: nat, data: seq<int>) returns (n: int)
      requires Valid()
      modifies this
      ensures Valid() && n <= |data|
      ensures n < 0 <==> data != [] && offset >= MAX_FILE_SIZE
      ensures n < 0 || data == [] ==> Flat() == old(Flat())
      ensures n >= 0 && data != [] ==> IsWrite(old(Flat()), Flat(), offset, data, n)
      ensures 0 <= n < |data| ==> frames == 0 || offset + n == MAX_FILE_SIZE
      ensures n == 0 <==> data == [] || (offset < MAX_FILE_SIZE && old(NoRoomAt(offset)))
      ensures n == 0 ==> (Flat() != old(Flat()) <==> data != [] && old(size) < offset)
      ensures AllFrames() == old(AllFrames())
    {
      if data == [] {
        return 0;
      }
      if offset >= MAX_FILE_SIZE {
        return -1;
      }
      NothingWritten(Flat(), offset, data);
      n := WritePieces(offset, data);
    }

    /** The pieces, until one is cut short. */
    method WritePieces(offset: nat, data: seq<int>) returns (n: nat)
      requires Valid() && offset < MAX_FILE_SIZE && data != []
      modifies this
      ensures Valid() && n <= |data|
      ensures IsWrite(old(Flat()), Flat(), offset, data, n)
      ensures n < |data| ==> frames == 0 || offset + n == MAX_FILE_SIZE
      ensures n == 0 <==> old(NoRoomAt(offset))
      ensures AllFrames() == old(AllFrames())
    {
      ghost var was := Flat();
      n := WritePiece(offset, data, 0, was);
      var whole := n == Min(|data|, PAGE_SIZE);
      while n < |data| && whole && offset + n < MAX_FILE_SIZE
        invariant Valid() && n <= |data| && offset + n <= MAX_FILE_SIZE && (n == 0 <==> old(NoRoomAt(offset)))
        invariant AllFrames() == old(AllFrames())
        invariant (n == 0 ==> !whole) && IsWrite(was, Flat(), offset, data, n)
        invariant !whole && n < |data| ==> frames == 0 || offset + n == MAX_FILE_SIZE
        decreases |data| - n, whole
      {
        var next := WritePiece(offset, data, n, was);
        whole := next == n + Min(|data| - n, PAGE_SIZE);
        n := next;
      }
    }

    /** Page-by-page read: exactly the bytes of the flat file that exist in the range. */
    method Read(offset: nat, count: nat) returns (buf: seq<int>)
      requires Valid()
      ensures buf == if offset >= size then [] else Flat()[offset..offset + Min(count, size - offset)]
    {
      if offset >= size {
        return [];
      }
      var toRead := Min(count, size - offset);
      buf := [];
      ghost var flat := Flat();
      while |buf| < toRead
        invariant |buf| <= toRead && buf == flat[offset..offset + |buf|]
      {
        var pos := offset + |buf|;
        var part := ReadPart(pos, toRead - |buf|);
        SliceJoin(flat, offset, pos, pos + |part|);
        buf := buf + part;
      }
    }

    /** The bytes from `pos` on that lie in one page; a hole reads as zeros. */
    method ReadPart(pos: nat, most: nat) returns (part: seq<int>)
      requires Valid() && 0 < most && pos + most <= size
      ensures 0 < |part| <= most && part == Flat()[pos..pos + |part|]
    {
      var p, po := pos / PAGE_SIZE, pos % PAGE_SIZE;
      var chunk := Min(most, PAGE_SIZE - po);
      part := if p in pages then pages[p][po..po + chunk] else seq(chunk, _ => 0);
      PartRead(size, pages, p, po, part);
    }

    /** Give the frames of the pages from `from` to `to` back. */
    method DropPages(from: nat, to: nat)
      modifies this`pages, this`frames
      ensures Without(old(pages), pages, from, to)
      ensures AllFrames() == old(AllFrames())
    {
      var p := from;
      while p < to
        invariant from <= p && (p <= to || p == from)
        invariant Without(old(pages), pages, from, p)
        invariant AllFrames() == old(AllFrames())
      {
        WithoutNext(old(pages), pages, from, p);
        if p in pages {
          OneLess(pages, p);
          pages, frames := pages - {p}, frames + 1;
        }
        p := p + 1;
      }
    }

    /** Keep the first pages only; the indirect table goes too when none of its pages is kept. */
    method DropFrom(keep: nat)
      requires PagesValid()
      modifies this`pages, this`frames, this`indirect
      ensures PagesValid() && Without(old(pages), pages, keep, MAX_PAGES)
      ensures AllFrames() == old(AllFrames())
      ensures keep <= DIRECT_PAGES ==> !indirect
    {
      DropPages(keep, DIRECT_PAGES);
      if indirect {
        DropPages(if keep > DIRECT_PAGES then keep else DIRECT_PAGES, MAX_PAGES);
        if keep <= DIRECT_PAGES {
          frames, indirect := frames + 1, false;
        }
      }
    }

    /** Drop the pages past the new end and clear the tail of the last one, so that growing again reads zeros. */
    method Truncate(n: nat) returns (ok: bool)
      requires Valid()
      modifies this
      ensures Valid()
      ensures ok <==> n <= MAX_FILE_SIZE
      ensures Flat() == if ok then FlatTruncate(old(Flat()), n) else old(Flat())
      ensures AllFrames() == old(AllFrames()) && (n == 0 ==> frames == AllFrames())
    {
      if n > MAX_FILE_SIZE {
        return false;
      }
      ok := true;
      var keep := if n == 0 then 0 else (n + PAGE_SIZE - 1) / PAGE_SIZE;
      DropFrom(keep);
      ghost var kept := pages;
      if keep > 0 && n % PAGE_SIZE != 0 && keep - 1 in pages {
        var page := ClearedAt(pages[keep - 1], n % PAGE_SIZE);
        OneMore(pages, keep - 1, page);
        pages := pages[keep - 1 := page];
      }
      size := n;
      forall i: nat ensures ByteAt(pages, i) == if i < n then ByteAt(old(pages), i) else 0 {
        TruncatedAt(old(pages), kept, pages, keep, n, i);
      }
      TruncatedFlat(old(size), old(pages), pages, n);
      assert n == 0 ==> pages.Keys == {};
    }
  }

  /** One frame left, one byte written at the first page behind the direct ones: 0 reported, the frame gone into the
      table of indirect pages, and the file longer. */
  method TableTakesFrame() returns (n: int, flat: seq<int>, frames: nat)
    ensures n == 0 && |flat| == DIRECT_PAGES * PAGE_SIZE && frames == 0
  {
    var f := new File(1);
    n := f.Pwrite(DIRECT_PAGES * PAGE_SIZE, [7]);
    flat, frames := f.Flat(), f.frames;
  }

  /** With no frame left, one byte written at offset 10 of an empty file: 0 reported, and ten zeros in the file. */
  method GapStays() returns (n: int, flat: seq<int>)
    ensures n == 0 && |flat| == 10
  {
    var f := new File(0);
    n := f.Pwrite(10, [7]);
    flat := f.Flat();
  }

  lemma WrittenFlat(size: nat, pages: map<nat, Page>, size': nat, pages': map<nat, Page>, off: nat, d: seq<int>)
    requires size' == if off + |d| > size then off + |d| else size
    requires forall i: nat :: i >= size ==> ByteAt(pages, i) == 0
    requires forall i: nat :: ByteAt(pages', i) == if off <= i < off + |d| then d[i - off] else ByteAt(pages, i)
    ensures Flatten(size', pages') == FlatWrite(Flatten(size, pages), off, d)
  {
    var f, g := Flatten(size', pages'), FlatWrite(Flatten(size, pages), off, d);
    assert f == g;
  }

  lemma SliceJoin(f: seq<int>, lo: nat, mid: nat, hi: nat)
    requires lo <= mid <= hi <= |f|
    ensures f[lo..mid] + f[mid..hi] == f[lo..hi]
  {
  }

  lemma PartRead(size: nat, pages: map<nat, Page>, p: nat, po: nat, part: seq<int>)
    requires po + |part| <= PAGE_SIZE && p * PAGE_SIZE + po + |part| <= size && (p in pages ==> |pages[p]| == PAGE_SIZE)
    requires part == if p in pages then pages[p][po..po + |part|] else seq(|part|, _ => 0)
    ensures var pos := p * PAGE_SIZE + po; part == Flatten(size, pages)[pos..pos + |part|]
  {
    var pos := p * PAGE_SIZE + po;
    forall k | 0 <= k < |part| ensures part[k] == Flatten(size, pages)[pos + k] {
      assert (pos + k) / PAGE_SIZE == p && (pos + k) % PAGE_SIZE == po + k;
    }
  }

  lemma ChunkCopied(before: map<nat, Page>, after: map<nat, Page>, p: nat, po: nat, part: seq<int>)
    requires p in before && |before[p]| == PAGE_SIZE && po + |part| <= PAGE_SIZE
    requires after == before[p := before[p][..po] + part + before[p][po + |part|..]]
    ensures var pos := p * PAGE_SIZE + po;
      forall i: nat :: ByteAt(after, i) == if pos <= i < pos + |part| then part[i - pos] else ByteAt(before, i)
  {
    var pos := p * PAGE_SIZE + po;
    forall i: nat ensures ByteAt(after, i) == if pos <= i < pos + |part| then part[i - pos] else ByteAt(before, i) {
      assert i == (i / PAGE_SIZE) * PAGE_SIZE + i % PAGE_SIZE;
    }
  }

  function ClearedAt(page: Page, n: nat): Page
    requires n <= PAGE_SIZE == |page|
  {
    page[..n] + seq(PAGE_SIZE - n, _ => 0)
  }

  lemma TruncatedAt(
    before: map<nat, Page>, kept: map<nat, Page>, after: map<nat, Page>, keep: nat, n: nat, i: nat)
    requires keep == (if n == 0 then 0 else (n + PAGE_SIZE - 1) / PAGE_SIZE) && keep <= MAX_PAGES
    requires forall p :: p in before ==> p < MAX_PAGES && |before[p]| == PAGE_SIZE
    requires Without(before, kept, keep, MAX_PAGES)
    requires after == if keep > 0 && n % PAGE_SIZE != 0 && keep - 1 in kept
                      then kept[keep - 1 := ClearedAt(kept[keep - 1], n % PAGE_SIZE)] else kept
    ensures ByteAt(after, i) == if i < n then ByteAt(before, i) else 0
  {
    var p := i / PAGE_SIZE;
    assert i == p * PAGE_SIZE + i % PAGE_SIZE;
    if p < keep - 1 {
      assert i < n;
    } else if p >= keep {
      assert i >= n;
    }
  }

  lemma TruncatedFlat(size: nat, pages: map<nat, Page>, pages': map<nat, Page>, n: nat)
    requires forall i: nat :: ByteAt(pages', i) == if i < n then ByteAt(pages, i) else 0
    requires forall i: nat :: i >= size ==> ByteAt(pages, i) == 0
    ensures Flatten(n, pages') == FlatTruncate(Flatten(size, pages), n)
  {
  }
}
