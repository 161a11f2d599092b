/** Cell payloads: how much lies on the B-tree page and how the rest is read from the chain of overflow
    pages (sections 1.6 and 1.7 of the SQLite Database File Format). */
module Payloads {
  import opened Common
  import opened Jsonb

  type PageBytes = map<nat, Bytes>

  // ----- Sizes -------------------------------------------------------------

  /** `decode_page_size`: 1 stands for 65536; otherwise a power of two from 512 up. */
  function PageSize(raw: nat): (r: Option<nat>)
    requires raw < 0x1_0000
    ensures r.Some? ==> 512 <= r.value <= 65536
  {
    if raw == 1 then Some(65536)
    else if raw in {512, 1024, 2048, 4096, 8192, 16384, 32768} then Some(raw)
    else None
  }

  predicate PowerOfTwo(n: nat) { n == 1 || (n > 1 && n % 2 == 0 && PowerOfTwo(n / 2)) }

  lemma {:induction false} Halved(n: nat, times: nat, m: nat)
    requires m >= 1 && n == m * Doubled(times)
    ensures PowerOfTwo(n) <==> PowerOfTwo(m)
  {
    if times > 0 {
      var half := m * Doubled(times - 1);
      assert n == 2 * half && n / 2 == half && n % 2 == 0;
      Halved(half, times - 1, m);
    }
  }

  function Doubled(times: nat): (d: nat)
    ensures d >= 1
  {
    if times == 0 then 1 else 2 * Doubled(times - 1)
  }

  lemma {:induction false} PowerDivides(n: nat, times: nat) returns (k: nat)
    requires PowerOfTwo(n) && n >= Doubled(times)
    ensures k >= 1 && n == k * Doubled(times)
    decreases times
  {
    if times == 0 {
      k := n;
    } else {
      k := PowerDivides(n / 2, times - 1);
      assert n == 2 * (k * Doubled(times - 1)) == k * Doubled(times);
    }
  }

  lemma SmallPowers(m: nat)
    requires 1 <= m <= 64
    ensures PowerOfTwo(m) <==> m in {1, 2, 4, 8, 16, 32, 64}
  {
    if m > 1 { SmallPowers2(m / 2); }
  }

  lemma SmallPowers2(m: nat)
    requires 1 <= m <= 32
    ensures PowerOfTwo(m) <==> m in {1, 2, 4, 8, 16, 32}
  {
    assert PowerOfTwo(1);
    assert PowerOfTwo(2) && PowerOfTwo(4) && PowerOfTwo(8) && PowerOfTwo(16) && PowerOfTwo(32);
    if m > 1 { SmallPowers3(m / 2); }
  }

  lemma SmallPowers3(m: nat)
    requires 1 <= m <= 16
    ensures PowerOfTwo(m) <==> m in {1, 2, 4, 8, 16}
  {
    assert PowerOfTwo(1) && PowerOfTwo(2) && PowerOfTwo(4) && PowerOfTwo(8) && PowerOfTwo(16);
    assert !PowerOfTwo(3) && !PowerOfTwo(5) && !PowerOfTwo(7) && !PowerOfTwo(6);
  }

  /** The header's 16-bit field stands for a page size exactly when it is 1, for 65536, or a power of two
      from 512 to 32768. */
  lemma PageSizeIff(raw: nat, n: nat)
    requires raw < 0x1_0000
    ensures PageSize(raw) == Some(n) <==> (raw == 1 && n == 65536) || (raw == n && n >= 512 && PowerOfTwo(n))
  {
    assert Doubled(9) == 512 by { assert Doubled(3) == 8; assert Doubled(6) == 64; }
    if PowerOfTwo(raw) && raw >= 512 {
      var k := PowerDivides(raw, 9);
      Halved(raw, 9, k);
      BelowPowers(k);
    } else if raw in {512, 1024, 2048, 4096, 8192, 16384, 32768} {
      Halved(raw, 9, raw / 512);
      BelowPowers(raw / 512);
    }
  }

  lemma BelowPowers(m: nat)
    requires 1 <= m <= 127
    ensures PowerOfTwo(m) <==> m in {1, 2, 4, 8, 16, 32, 64}
  {
    if m > 64 {
      if PowerOfTwo(m) { SmallPowers(m / 2); }
    } else {
      SmallPowers(m);
    }
  }

  function UsableSize(pageSize: nat, reserved: byte): Result<nat> {
    if reserved >= pageSize then Err(Malformed) else Ok(pageSize - reserved)
  }

  function CheckedSub(a: int, b: int): Option<int> { if a < b then None else Some(a - b) }

  /** `btree_max_local`. */
  function MaxLocal(usable: nat, isIndex: bool): Option<int> {
    if isIndex then (if usable < 12 then None else CheckedSub((usable - 12) * 64 / 255, 23)) else CheckedSub(usable, 35)
  }

  /** `btree_min_local`. */
  function MinLocal(usable: nat): Option<int> {
    if usable < 12 then None else CheckedSub((usable - 12) * 32 / 255, 23)
  }

  /** How many payload bytes lie on the page itself. */
  function LocalSize(usable: nat, isIndex: bool, size: nat): Result<int> {
    var most, least := MaxLocal(usable, isIndex), MinLocal(usable);
    if most.None? || least.None? then Err(Malformed)
    else if size <= most.value then Ok(size)
    else if usable <= 4 then Err(Malformed)
    else
      var local := least.value + (size - least.value) % (usable - 4);
      Ok(if local > most.value then least.value else local)
  }

  lemma LocalLimits(usable: nat, isIndex: bool)
    requires 257 <= usable <= 65536
    ensures MaxLocal(usable, isIndex).Some? && MinLocal(usable).Some?
    ensures 0 <= MinLocal(usable).value <= MaxLocal(usable, isIndex).value < usable
  {
    var n := usable - 12;
    assert n * 32 / 255 >= 23 && n * 64 / 255 >= n * 32 / 255;
    assert n * 64 / 255 <= n;
  }

  /** Every accepted header gives sizes that never underflow and keep their order, and leaves room for
      a chunk on each overflow page. */
  lemma AcceptedSizes(raw: nat, reserved: byte, isIndex: bool)
    requires raw < 0x1_0000 && PageSize(raw).Some?
    ensures UsableSize(PageSize(raw).value, reserved).Ok?
    ensures var usable := UsableSize(PageSize(raw).value, reserved).value;
            && usable == PageSize(raw).value - reserved && 257 <= usable <= 65536
            && MaxLocal(usable, isIndex).Some? && MinLocal(usable).Some?
            && 0 <= MinLocal(usable).value <= MaxLocal(usable, isIndex).value < usable
  {
    LocalLimits(UsableSize(PageSize(raw).value, reserved).value, isIndex);
  }

  lemma Remainder(n: nat, m: nat)
    requires m > 0
    ensures 0 <= n % m <= n
  {
    if n < m { assert n % m == n; }
  }

  /** The local part is the whole payload when that fits, and otherwise lies between the two limits
      and leaves a rest for the chain. */
  lemma LocalSizeBounds(usable: nat, isIndex: bool, size: nat)
    requires 257 <= usable <= 65536
    ensures LocalSize(usable, isIndex, size).Ok? && MaxLocal(usable, isIndex).Some? && MinLocal(usable).Some?
    ensures var local, most, least := LocalSize(usable, isIndex, size).value, MaxLocal(usable, isIndex).value,
            MinLocal(usable).value;
            && 0 <= local <= most && local <= size
            && (local == size <==> size <= most)
            && (size > most ==> least <= local)
  {
    LocalLimits(usable, isIndex);
    if size > MaxLocal(usable, isIndex).value {
      Remainder(size - MinLocal(usable).value, usable - 4);
    }
  }

  /** Section 1.6 in its own letters: U usable bytes per page, P bytes of payload, of which this many are
      stored on the page. */
  function StoredLocally(U: nat, isIndex: bool, P: nat): (r: nat)
    requires 257 <= U <= 65536
    ensures r <= P
  {
    var X := if isIndex then (U - 12) * 64 / 255 - 23 else U - 35;
    var M := (U - 12) * 32 / 255 - 23;
    if P <= X then P
    else
      Remainder(P - M, U - 4);
      var K := M + (P - M) % (U - 4);
      if K <= X then K else M
  }

  /** What the code computes is what the format says. */
  lemma LocalSizeIs(usable: nat, isIndex: bool, size: nat)
    requires 257 <= usable <= 65536
    ensures LocalSize(usable, isIndex, size) == Ok(StoredLocally(usable, isIndex, size))
  {
    LocalLimits(usable, isIndex);
  }

  // ----- Overflow chains ---------------------------------------------------

  /** A page number as it stands in a file: four bytes, the most significant first. */
  function PageNumber(b: Bytes): nat
    requires |b| == 4
  {
    (b[0] as int) * 0x100_0000 + (b[1] as int) * 0x1_0000 + (b[2] as int) * 0x100 + b[3] as int
  }

  lemma PageNumberIs(b: Bytes)
    requires |b| == 4
    ensures BigEndianValue(b) == PageNumber(b)
  {
    assert b[..3][..2] == b[..2] && b[..2][..1] == b[..1] && b[..1][..0] == [];
    assert BigEndianValue(b[..1]) == b[0];
    assert BigEndianValue(b[..2]) == 256 * (b[0] as int) + b[1] as int;
    assert BigEndianValue(b[..3]) == 256 * (256 * (b[0] as int) + b[1] as int) + b[2] as int;
  }

  function Min(a: nat, b: nat): nat { if a < b then a else b }

  /** `read_overflow_chain` from a page on, with this many bytes still to come. */
  function ReadChain(pages: PageBytes, page: nat, remaining: nat, chunk: nat): (r: Result<Bytes>)
    requires chunk > 0
    ensures r.Ok? ==> |r.value| == remaining
    ensures r.Err? ==> r.error == Malformed
    decreases remaining
  {
    if remaining == 0 then Ok([])
    else if page !in pages || |pages[page]| < 4 then Err(Malformed)
    else
      var bytes, take := pages[page], Min(remaining, chunk);
      if |bytes| < 4 + take then Err(Malformed)
      else if remaining == take then Ok(bytes[4..4 + take])
      else if BigEndianValue(bytes[..4]) == 0 then Err(Malformed)
      else match ReadChain(pages, BigEndianValue(bytes[..4]), remaining - take, chunk)
        case Err(e) => Err(e)
        case Ok(rest) => Ok(bytes[4..4 + take] + rest)
  }

  /** What the reader ends up with, having read `before` and standing at a page. */
  function Total(before: Bytes, pages: PageBytes, page: nat, remaining: nat, chunk: nat): Result<Bytes>
    requires chunk > 0
  {
    Joined(Ok(before), ReadChain(pages, page, remaining, chunk))
  }

  lemma TotalStep(before: Bytes, pages: PageBytes, page: nat, remaining: nat, chunk: nat)
    requires chunk > 0 && remaining > 0 && page in pages && |pages[page]| >= 4 + Min(remaining, chunk)
    ensures var take, link := Min(remaining, chunk), BigEndianValue(pages[page][..4]);
            Total(before, pages, page, remaining, chunk)
            == if remaining == take then Ok(before + pages[page][4..4 + take])
               else if link == 0 then Err(Malformed)
               else Total(before + pages[page][4..4 + take], pages, link, remaining - take, chunk)
  {
    var take, link := Min(remaining, chunk), BigEndianValue(pages[page][..4]);
    var slice, rest := pages[page][4..4 + take], ReadChain(pages, link, remaining - take, chunk);
    if rest.Ok? { assert before + (slice + rest.value) == (before + slice) + rest.value; }
  }

  lemma TotalEnds(before: Bytes, pages: PageBytes, page: nat, count: nat, chunk: nat)
    requires chunk > 0
    ensures Total([], pages, page, count, chunk) == ReadChain(pages, page, count, chunk)
    ensures Total(before, pages, page, 0, chunk) == Ok(before)
  {
    var r := ReadChain(pages, page, count, chunk);
    if r.Ok? { assert [] + r.value == r.value; }
    assert before + [] == before;
  }

  /** The reader's loop; it ends on every page map, cycles of links included, because each page it
      visits takes bytes off what remains. */
  method ReadOverflowChain(pages: PageBytes, first: nat, count: nat, usable: nat) returns (r: Result<Bytes>)
    ensures r == if first == 0 || usable <= 4 then Err(Malformed) else ReadChain(pages, first, count, usable - 4)
  {
    if first == 0 || usable <= 4 {
      return Err(Malformed);
    }
    var chunk := usable - 4;
    var remaining, next := count, first;
    var payload: Bytes := [];
    TotalEnds([], pages, first, count, chunk);
    while remaining > 0
      invariant Total(payload, pages, next, remaining, chunk) == ReadChain(pages, first, count, chunk)
      decreases remaining
    {
      if next !in pages || |pages[next]| < 4 {
        return Err(Malformed);
      }
      var bytes, take := pages[next], Min(remaining, chunk);
      if |bytes| < 4 + take {
        return Err(Malformed);
      }
      TotalStep(payload, pages, next, remaining, chunk);
      var link := BigEndianValue(bytes[..4]);
      payload := payload + bytes[4..4 + take];
      remaining := remaining - take;
      if remaining == 0 {
        return Ok(payload);
      }
      if link == 0 {
        return Err(Malformed);
      }
      next := link;
    }
    TotalEnds(payload, pages, next, 0, chunk);
    r := Ok(payload);
  }

  /** Section 1.7: data spread over a chain. Each page starts with the number of the next; a page that
      is followed by another holds a full chunk, and the last holds what is left. */
  ghost predicate ChainHolds(pages: PageBytes, page: nat, data: Bytes, chunk: nat)
    requires chunk > 0
    decreases |data|
  {
    data != [] ==>
      && page in pages && |pages[page]| >= 4 + Min(|data|, chunk)
      && pages[page][4..4 + Min(|data|, chunk)] == data[..Min(|data|, chunk)]
      && (|data| > chunk ==>
        exists next: nat ::
            next != 0 && PageNumber(pages[page][..4]) == next && ChainHolds(pages, next, data[chunk..], chunk))
  }

  lemma Halves<T>(data: seq<T>, a: seq<T>, b: seq<T>)
    requires |a| <= |data|
    ensures a + b == data <==> a == data[..|a|] && b == data[|a|..]
  {
    assert data == data[..|a|] + data[|a|..];
    if a + b == data {
      assert a == (a + b)[..|a|] && b == (a + b)[|a|..];
    }
  }

  /** The reader returns exactly what is laid out: it succeeds with `data` if and only if the chain
      holds `data`. */
  lemma {:induction false} ReadChainIff(pages: PageBytes, page: nat, data: Bytes, chunk: nat)
    requires chunk > 0
    ensures ReadChain(pages, page, |data|, chunk) == Ok(data) <==> ChainHolds(pages, page, data, chunk)
    decreases |data|
  {
    var take := Min(|data|, chunk);
    if page in pages && |pages[page]| >= 4 + take && data != [] {
      var bytes, next := pages[page], BigEndianValue(pages[page][..4]);
      PageNumberIs(bytes[..4]);
      if |data| > chunk {
        ReadChainIff(pages, next, data[take..], chunk);
        var rest := ReadChain(pages, next, |data| - take, chunk);
        if rest.Ok? { Halves(data, bytes[4..4 + take], rest.value); }
      } else {
        assert data[..take] == data;
      }
    }
  }

  // ----- Whole payloads ----------------------------------------------------

  /** `read_btree_payload` for a cell whose payload starts at an offset of its page. */
  function ReadPayload(pages: PageBytes, usable: nat, page: Bytes, offset: nat, size: nat,
      isIndex: bool): Result<Bytes> {
    match LocalSize(usable, isIndex, size)
    case Err(e) => Err(e)
    case Ok(local) => if local < 0 then Err(Malformed) else ReadSplit(pages, usable, page, offset, size, local)
  }

  /** The payload of which `local` bytes lie on the page. */
  function ReadSplit(pages: PageBytes, usable: nat, page: Bytes, offset: nat, size: nat, local: nat): Result<Bytes> {
    if offset + local > |page| then Err(Malformed)
    else if size <= local then Ok(page[offset..offset + local])
    else if offset + local + 4 > |page| then Err(Malformed)
    else
      var first := BigEndianValue(page[offset + local..offset + local + 4]);
      if first == 0 || usable <= 4 then Err(Malformed)
      else match ReadChain(pages, first, size - local, usable - 4)
        case Err(e) => Err(e)
        case Ok(rest) => Ok(page[offset..offset + local] + rest)
  }

  /** Sections 1.6 and 1.7: the local part on the page, then a page number and the rest in a chain. */
  ghost predicate LaidOut(pages: PageBytes, usable: nat, page: Bytes, offset: nat, data: Bytes, isIndex: bool)
    requires 257 <= usable <= 65536
  {
    SplitAt(pages, usable, page, offset, data, StoredLocally(usable, isIndex, |data|))
  }

  ghost predicate SplitAt(pages: PageBytes, usable: nat, page: Bytes, offset: nat, data: Bytes, local: nat)
    requires 4 < usable && local <= |data|
  {
    && offset + local <= |page| && page[offset..offset + local] == data[..local]
    && (local < |data| ==>
      && offset + local + 4 <= |page|
      && PageNumber(page[offset + local..offset + local + 4]) != 0
      && ChainHolds(pages, PageNumber(page[offset + local..offset + local + 4]), data[local..], usable - 4))
  }

  lemma ReadSplitIff(pages: PageBytes, usable: nat, page: Bytes, offset: nat, data: Bytes, local: nat)
    requires 4 < usable && local <= |data|
    ensures ReadSplit(pages, usable, page, offset, |data|, local) == Ok(data) <==>
            SplitAt(pages, usable, page, offset, data, local)
  {
    if local == |data| {
      assert data[..local] == data;
    } else if offset + local + 4 <= |page| {
      var first := BigEndianValue(page[offset + local..offset + local + 4]);
      PageNumberIs(page[offset + local..offset + local + 4]);
      ReadChainIff(pages, first, data[local..], usable - 4);
      var rest := ReadChain(pages, first, |data| - local, usable - 4);
      if rest.Ok? { Halves(data, page[offset..offset + local], rest.value); }
    }
  }

  /** Reading a payload returns the laid-out bytes, and nothing else reads as them. */
  lemma ReadPayloadIff(pages: PageBytes, usable: nat, page: Bytes, offset: nat, data: Bytes, isIndex: bool)
    requires 257 <= usable <= 65536
    ensures ReadPayload(pages, usable, page, offset, |data|, isIndex) == Ok(data) <==>
            LaidOut(pages, usable, page, offset, data, isIndex)
  {
    LocalSizeIs(usable, isIndex, |data|);
    ReadSplitIff(pages, usable, page, offset, data, StoredLocally(usable, isIndex, |data|));
  }
}
