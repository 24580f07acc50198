/** From page and size parameters to a window of rows: messages/params.go and the window check of
    notification.go, in 64-bit arithmetic. */
module Paging {
  import opened Int64
  import opened Wrappers

  /** _optionalIntParam: `parsed` is None for a blank parameter and for one that does not parse. */
  function OptionalInt(parsed: Option<int>, default: int): int {
    if parsed.Some? then parsed.value else default
  }

  function Min(a: int, b: int): int { if a < b then a else b }

  function Max(a: int, b: int): int { if a > b then a else b }

  /** The size that comes of a request: the bounds are at least 1, taken in order, and clamp it. */
  function SizeOf(size: Option<int>, defaultSize: int, minSize: int, maxSize: int): int {
    var lo, hi := Min(Max(minSize, 1), Max(maxSize, 1)), Max(Max(minSize, 1), Max(maxSize, 1));
    Max(lo, Min(hi, OptionalInt(size, defaultSize)))
  }

  method OptionalOffsetAndSize(page: Option<int>, size: Option<int>, defaultSize: int, minSize: int, maxSize: int)
    returns (offset: int, limit: int)
    ensures limit == SizeOf(size, defaultSize, minSize, maxSize)
    ensures Max(1, Min(minSize, maxSize)) <= limit <= Max(1, Max(minSize, maxSize))
    ensures var wanted := if size.Some? then size.value else defaultSize;
      Max(1, Min(minSize, maxSize)) <= wanted <= Max(1, Max(minSize, maxSize)) ==> limit == wanted
    ensures var wanted := if size.Some? then size.value else defaultSize;
      wanted < Max(1, Min(minSize, maxSize)) ==> limit == Max(1, Min(minSize, maxSize))
    ensures var wanted := if size.Some? then size.value else defaultSize;
      wanted > Max(1, Max(minSize, maxSize)) ==> limit == Max(1, Max(minSize, maxSize))
    ensures page.Some? && page.value > 1 ==> offset == Wrap64((page.value - 1) * limit)
    ensures page.None? || page.value <= 1 ==> offset == 0
  {
    var pg := OptionalInt(page, 0);
    if pg < 1 {
      pg := 1;
    }
    pg := pg - 1;
    var lo, hi := minSize, maxSize;
    if lo < 1 {
      lo := 1;
    }
    if hi < 1 {
      hi := 1;
    }
    if lo > hi {
      lo, hi := hi, lo;
    }
    var sz := OptionalInt(size, defaultSize);
    if sz < lo {
      sz := lo;
    } else if sz > hi {
      sz := hi;
    }
    return Wrap64(pg * sz), sz;
  }

  /** Where a window starts and how long it is once it is made to fit `count` rows. */
  function WindowStart(count: int, offset: int, limit: int): int {
    if offset >= count then Max(0, count - limit) else Max(0, offset)
  }

  function WindowLength(count: int, offset: int, limit: int): int {
    Min(limit, count - WindowStart(count, offset, limit))
  }

  /** validateOffsetAndLimit on its two pointers, each step in 64 bits. */
  method ValidateOffsetAndLimit(count: int, offset: int, limit: int) returns (o: int, l: int)
    requires IsInt64(count) && IsInt64(offset) && IsInt64(limit) && 0 <= count
    requires count + Max(limit, 1) <= MAX_INT64
    ensures o == WindowStart(count, offset, Max(limit, 1)) && l == WindowLength(count, offset, Max(limit, 1))
    ensures 0 <= o <= count && 0 <= l && o + l <= count && (count > 0 ==> l >= 1)
  {
    o, l := offset, limit;
    if l < 1 {
      l := 1;
    }
    if o >= count {
      o := Wrap64(count - l);
    }
    if o < 0 {
      o := 0;
    }
    if Wrap64(o + l) > count {
      l := Wrap64(count - o);
    }
  }

  // ----- pages -----

  const MAX_SIZE := 100

  /** The offset of a page, as it is left in 64 bits. */
  function PageOffset(page: int, size: int): int {
    Wrap64((Max(page, 1) - 1) * size)
  }

  /** The rows a page shows: the two steps together, as the message list calls them with sizes 1..100. */
  function PageStart(count: int, page: int, size: int): int {
    WindowStart(count, PageOffset(page, size), size)
  }

  function PageLength(count: int, page: int, size: int): int {
    WindowLength(count, PageOffset(page, size), size)
  }

  /** The size a request for messages gets: 30 if it names none, else what it names, from 1 up to 100. */
  function SizeUsed(size: Option<int>): int {
    match size
    case None => 30
    case Some(n) => if n < 1 then 1 else if n > 100 then 100 else n
  }

  /** And its page: the first if it names none or one below it. */
  function PageUsed(page: Option<int>): int {
    match page
    case None => 1
    case Some(k) => if k < 1 then 1 else k
  }

  /** The two steps as the message list takes them. */
  method PageWindow(page: Option<int>, size: Option<int>, count: int) returns (o: int, l: int)
    requires 1 <= count && count + 100 <= 0x7fff_ffff_ffff_ffff
    ensures 0 <= o && 1 <= l <= 100 && o + l <= count
    ensures var sz := SizeUsed(size);
      o == PageStart(count, PageUsed(page), sz) && l == PageLength(count, PageUsed(page), sz)
    ensures var sz, k := SizeUsed(size), PageUsed(page);
      (k - 1) * sz < count ==> o == (k - 1) * sz && l == Min(sz, count - (k - 1) * sz)
  {
    var offset, limit := OptionalOffsetAndSize(page, size, 30, 1, MAX_SIZE);
    assert limit == SizeUsed(size);
    FirstOffset(PageUsed(page), limit);
    WrapIsMod((PageUsed(page) - 1) * limit);
    assert offset == PageOffset(PageUsed(page), limit);
    o, l := ValidateOffsetAndLimit(count, offset, limit);
    PageWithin(count, PageUsed(page), limit);
  }

  lemma {:induction false} FirstOffset(page: int, size: int)
    requires 1 <= page
    ensures PageOffset(page, size) == Wrap64((page - 1) * size) && (page == 1 ==> PageOffset(page, size) == 0)
  {
  }

  /** A page that starts within the list. */
  lemma {:induction false} PageWithin(count: int, page: int, size: int)
    requires 1 <= count && count + MAX_SIZE <= MAX_INT64 && 1 <= size <= MAX_SIZE && 1 <= page
    ensures (page - 1) * size < count ==>
      PageStart(count, page, size) == (page - 1) * size
      && PageLength(count, page, size) == Min(size, count - (page - 1) * size)
  {
    if (page - 1) * size < count {
      PageAt(count, page, size);
      assert page * size == (page - 1) * size + size;
    }
  }

  /** For every page number, wrapped or not: the window lies in the list and is not empty. */
  lemma {:induction false} EveryPageInBounds(count: int, page: int, size: int)
    requires 1 <= count && 1 <= size
    ensures 0 <= PageStart(count, page, size) && 1 <= PageLength(count, page, size) <= size
    ensures PageStart(count, page, size) + PageLength(count, page, size) <= count
  {
  }

  function PageRows<T>(rows: seq<T>, page: int, size: int): seq<T>
    requires 1 <= |rows| && 1 <= size
  {
    EveryPageInBounds(|rows|, page, size);
    var start := PageStart(|rows|, page, size);
    rows[start..start + PageLength(|rows|, page, size)]
  }

  /** Pages 1 to k, one after the other. */
  function PagesUpTo<T>(rows: seq<T>, k: nat, size: int): seq<T>
    requires 1 <= |rows| && 1 <= size
  {
    if k == 0 then [] else PagesUpTo(rows, k - 1, size) + PageRows(rows, k, size)
  }

  /** `n` is the number of pages: count / size, rounded up. */
  predicate IsPageCount(n: int, count: int, size: int) {
    (n - 1) * size < count <= n * size
  }

  lemma {:induction false} PageCountExists(count: int, size: int) returns (n: nat)
    requires 1 <= count && 1 <= size
    ensures IsPageCount(n, count, size)
  {
    var m := count + size - 1;
    assert m == (m / size) * size + m % size;
    n := m / size;
    assert (n - 1) * size == n * size - size;
  }

  lemma {:induction false} Scale(a: int, b: int, size: int)
    requires a <= b && 1 <= size
    ensures a * size <= b * size
  {
  }

  /** A page up to the last one starts where the pages before it end. */
  lemma {:induction false} PageAt(count: int, k: int, size: int)
    requires 1 <= count && 1 <= size <= MAX_SIZE && count + MAX_SIZE <= MAX_INT64
    requires 1 <= k && (k - 1) * size < count
    ensures PageStart(count, k, size) == (k - 1) * size
    ensures PageStart(count, k, size) + PageLength(count, k, size) == Min(k * size, count)
  {
    Scale(0, k - 1, size);
    assert k * size == (k - 1) * size + size;
  }

  lemma {:induction false} PageRowsAt<T>(rows: seq<T>, k: int, size: int)
    requires 1 <= |rows| && 1 <= size <= MAX_SIZE && |rows| + MAX_SIZE <= MAX_INT64
    requires 1 <= k && (k - 1) * size < |rows|
    ensures var lo, hi := (k - 1) * size, Min(k * size, |rows|);
      0 <= lo <= hi <= |rows| && PageRows(rows, k, size) == rows[lo..hi]
  {
    Scale(0, k - 1, size);
    PageAt(|rows|, k, size);
    EveryPageInBounds(|rows|, k, size);
  }

  lemma {:induction false} Glue<T>(rows: seq<T>, lo: nat, hi: nat)
    requires lo <= hi <= |rows|
    ensures rows[..lo] + rows[lo..hi] == rows[..hi]
  {
  }

  lemma {:induction false} PagesPrefix<T>(rows: seq<T>, k: nat, size: int)
    requires 1 <= |rows| && 1 <= size <= MAX_SIZE && |rows| + MAX_SIZE <= MAX_INT64
    requires (k - 1) * size < |rows|
    ensures k * size >= 0
    ensures PagesUpTo(rows, k, size) == rows[..Min(k * size, |rows|)]
  {
    Scale(0, k, size);
    if k > 0 {
      Scale(k - 2, k - 1, size);
      PagesPrefix(rows, k - 1, size);
      PageRowsAt(rows, k, size);
      var lo, hi := (k - 1) * size, Min(k * size, |rows|);
      Glue(rows, lo, hi);
    }
  }

  /** Pages 1 to the last tile the list: every row once, in order. */
  lemma {:induction false} PagesTile<T>(rows: seq<T>, size: int, n: nat)
    requires 1 <= |rows| && 1 <= size <= MAX_SIZE && |rows| + MAX_SIZE <= MAX_INT64
    requires IsPageCount(n, |rows|, size)
    ensures PagesUpTo(rows, n, size) == rows
  {
    PagesPrefix(rows, n, size);
    assert rows[..|rows|] == rows;
  }

  /** And there is such a last page, for every list and size. */
  lemma {:induction false} SomePagesTile<T>(rows: seq<T>, size: int) returns (n: nat)
    requires 1 <= |rows| && 1 <= size <= MAX_SIZE && |rows| + MAX_SIZE <= MAX_INT64
    ensures IsPageCount(n, |rows|, size) && PagesUpTo(rows, n, size) == rows
  {
    n := PageCountExists(|rows|, size);
    PagesTile(rows, size, n);
  }

  // ----- pages past the last one, and offsets that wrap -----

  /** Exactly which pages show the last rows, for every page number. */
  lemma {:induction false} LastRowsIff(count: int, page: int, size: int)
    requires 1 <= count && 1 <= size
    ensures var offset := PageOffset(page, size);
      PageStart(count, page, size) == Max(0, count - size) && PageLength(count, page, size) == Min(size, count)
      <==> offset >= count || Max(0, offset) == Max(0, count - size)
  {
  }

  /** Exactly which pages start at the first row, for every page number. */
  lemma {:induction false} FirstRowIff(count: int, page: int, size: int)
    requires 1 <= count && 1 <= size
    ensures var offset := PageOffset(page, size);
      PageStart(count, page, size) == 0 <==> offset <= 0 || (offset >= count && count <= size)
  {
  }

  /** Past the last page the last rows come again, so long as the offset fits 64 bits. */
  lemma {:induction false} LaterPages<T>(rows: seq<T>, page: int, size: int, n: nat)
    requires 1 <= |rows| && 1 <= size <= MAX_SIZE && |rows| + MAX_SIZE <= MAX_INT64
    requires IsPageCount(n, |rows|, size) && page > n && (page - 1) * size <= MAX_INT64
    ensures PageRows(rows, page, size) == rows[|rows| - Min(size, |rows|)..]
  {
    Scale(n, page - 1, size);
    LastRowsIff(|rows|, page, size);
  }

  lemma {:induction false} WrapPeriod(x: int, k: int)
    ensures Wrap64(x + k * 0x1_0000_0000_0000_0000) == Wrap64(x)
  {
    WrapIsMod(x);
    WrapIsMod(x + k * 0x1_0000_0000_0000_0000);
    var m, y := 0x1_0000_0000_0000_0000, x + 0x8000_0000_0000_0000;
    var q, r := y / m, y % m;
    assert y + k * m == (q + k) * m + r;
    assert (y + k * m) % m == r;
  }

  /** Pages whose offsets differ by a multiple of 2^64 show the same rows. */
  lemma {:induction false} PagesWrap<T>(rows: seq<T>, p: int, q: int, size: int, k: int)
    requires 1 <= |rows| && 1 <= size && 1 <= p && 1 <= q
    requires (p - 1) * size == (q - 1) * size + k * 0x1_0000_0000_0000_0000
    ensures PageRows(rows, p, size) == PageRows(rows, q, size)
  {
    WrapPeriod((q - 1) * size, k);
  }

  /** In pages of 64 rows, all pages show up again 2^58 pages later, from the first one on. */
  lemma {:induction false} PagesComeAgain<T>(rows: seq<T>, q: int)
    requires 1 <= |rows| && 1 <= q
    ensures PageRows(rows, 0x400_0000_0000_0000 + q, 64) == PageRows(rows, q, 64)
  {
    PagesWrap(rows, 0x400_0000_0000_0000 + q, q, 64, 1);
  }
}
