/**
 ListVolumes and its tokens: a token is the decimal index of the first entry of the next page.
 */
module Pagination {
  import opened Common
  import opened Capacity

  const MaxInt := 0x7FFF_FFFF_FFFF_FFFF

  // ----- tokens -----

  predicate IsDigit(c: char) { '0' <= c <= '9' }

  function DigitOf(n: nat): char
    requires n < 10
  {
    '0' + n as char
  }

  function ValueOf(c: char): (n: nat)
    requires IsDigit(c)
    ensures n < 10 && DigitOf(n) == c
  {
    (c - '0') as nat
  }

  function PrintNat(n: nat): string {
    if n < 10 then [DigitOf(n)] else PrintNat(n / 10) + [DigitOf(n % 10)]
  }

  predicate AllDigits(t: string) { forall i :: 0 <= i < |t| ==> IsDigit(t[i]) }

  function DigitsValue(t: string): nat
    requires AllDigits(t)
  {
    if t == [] then 0 else DigitsValue(t[..|t| - 1]) * 10 + ValueOf(t[|t| - 1])
  }

  /** strconv.Atoi on 64-bit integers: an optional sign and at least one digit, in range. */
  function Atoi(t: string): Option<int> {
    if t != [] && t[0] == '-' then
      if t[1..] != [] && AllDigits(t[1..]) && DigitsValue(t[1..]) <= MaxInt + 1 then Some(0 - DigitsValue(t[1..])) else None
    else
      var u := if t != [] && t[0] == '+' then t[1..] else t;
      if u != [] && AllDigits(u) && DigitsValue(u) <= MaxInt then Some(DigitsValue(u)) else None
  }

  function ParseToken(t: string): Option<int> {
    if t == "" then Some(0) else Atoi(t)
  }

  function NextToken(next: int): string {
    if next > 0 then PrintNat(next) else ""
  }

  lemma {:induction false} PrintedDigits(n: nat)
    ensures PrintNat(n) != [] && AllDigits(PrintNat(n)) && DigitsValue(PrintNat(n)) == n
  {
    if n < 10 {
      assert PrintNat(n) == [DigitOf(n)];
      assert [DigitOf(n)][..0] == [];
    } else {
      PrintedDigits(n / 10);
      var t := PrintNat(n);
      assert t[..|t| - 1] == PrintNat(n / 10);
    }
  }

  /** Tokens that parse: the empty one, and decimal numbers with an optional sign that fit 64 bits. */
  lemma ParseTokenExactly(t: string, v: int)
    ensures ParseToken(t) == Some(v) <==>
      || (t == "" && v == 0)
      || (0 <= v <= MaxInt && (IsNumeral(t, v) || (t != "" && t[0] == '+' && IsNumeral(t[1..], v))))
      || (0 <= -v <= MaxInt + 1 && t != "" && t[0] == '-' && IsNumeral(t[1..], -v))
  {
  }

  /** A nonempty string of digits, read as a decimal number. */
  ghost predicate IsNumeral(u: string, v: int) {
    u != "" && AllDigits(u) && DigitsValue(u) == v
  }

  /** A printed token parses back to its number. */
  lemma TokenRoundTrip(n: nat)
    requires n <= MaxInt
    ensures ParseToken(NextToken(n)) == Some(n)
  {
    PrintedDigits(n);
    var t := PrintNat(n);
    assert IsDigit(t[0]);
  }

  // ----- pages -----

  /** A page and where the next one starts, 0 if there is none; Panic is a slice out of bounds. */
  datatype Page<T> = Page(items: seq<T>, next: int) | Panic

  function Slice<T>(s: seq<T>, lo: int, hi: int, next: int): Page<T> {
    if 0 <= lo <= hi <= |s| then Page(s[lo..hi], next) else Panic
  }

  function Paginate<T>(s: seq<T>, start: int, size: int): Page<T> {
    if start > |s| then Slice(s, |s|, |s|, 0)
    else if size == 0 then Slice(s, start, |s|, 0)
    else if start + size >= |s| then Slice(s, start, |s|, 0)
    else Slice(s, start, start + size, start + size)
  }

  /** Tokens and entry counts are not checked; slicing is out of bounds exactly for these. */
  lemma PaginatePanics<T>(s: seq<T>, start: int, size: int)
    ensures Paginate(s, start, size).Panic? <==> start < 0 || (start <= |s| && size < 0)
  {
  }

  ghost predicate Usable<T>(list: seq<T>, token: string) {
    ParseToken(token).Some? && 0 <= ParseToken(token).value <= |list|
  }

  lemma NextIsUsable<T>(list: seq<T>, start: int, size: nat)
    requires 0 < size && 0 <= start <= |list| <= MaxInt
    ensures var p := Paginate(list, start, size);
      p.Page? && (p.next > 0 ==> start < p.next < |list| && ParseToken(NextToken(p.next)) == Some(p.next))
  {
    var p := Paginate(list, start, size);
    if p.next > 0 { TokenRoundTrip(p.next); }
  }

  /** The pages a client gets that follows the printed tokens until it is given none. */
  ghost function Walk<T>(list: seq<T>, token: string, size: nat): (pages: seq<seq<T>>)
    requires 0 < size && |list| <= MaxInt && Usable(list, token)
    ensures pages != []
    decreases |list| - ParseToken(token).value
  {
    var start := ParseToken(token).value;
    var p := Paginate(list, start, size);
    NextIsUsable(list, start, size);
    if NextToken(p.next) == "" then [p.items] else [p.items] + Walk(list, NextToken(p.next), size)
  }

  /** The same pages by index, without tokens. */
  ghost function PagesFrom<T>(list: seq<T>, start: nat, size: nat): (pages: seq<seq<T>>)
    requires 0 < size && start <= |list|
    ensures pages != []
    decreases |list| - start
  {
    if start + size >= |list| then [list[start..]] else [list[start..start + size]] + PagesFrom(list, start + size, size)
  }

  lemma {:induction false} WalkIsPagesFrom<T>(list: seq<T>, token: string, size: nat)
    requires 0 < size && |list| <= MaxInt && Usable(list, token)
    ensures Walk(list, token, size) == PagesFrom(list, ParseToken(token).value, size)
    decreases |list| - ParseToken(token).value
  {
    var start := ParseToken(token).value;
    NextIsUsable(list, start, size);
    assert list[start..|list|] == list[start..];
    if start + size < |list| {
      PrintedDigits(start + size);
      WalkIsPagesFrom(list, NextToken(start + size), size);
    }
  }

  ghost function Flatten<T>(pages: seq<seq<T>>): seq<T> {
    if pages == [] then [] else pages[0] + Flatten(pages[1..])
  }

  lemma {:induction false} PagesCover<T>(list: seq<T>, start: nat, size: nat)
    requires 0 < size && start <= |list|
    ensures Flatten(PagesFrom(list, start, size)) == list[start..]
    decreases |list| - start
  {
    var pages := PagesFrom(list, start, size);
    if start + size >= |list| {
      assert pages[1..] == [];
    } else {
      PagesCover(list, start + size, size);
      assert pages[1..] == PagesFrom(list, start + size, size);
      assert list[start..start + size] + list[start + size..] == list[start..];
    }
  }

  lemma {:induction false} PagesAreFull<T>(list: seq<T>, start: nat, size: nat)
    requires 0 < size && start <= |list|
    ensures var pages := PagesFrom(list, start, size);
      && (forall i :: 0 <= i < |pages| - 1 ==> |pages[i]| == size)
      && |pages[|pages| - 1]| <= size
      && |list| - start <= |pages| * size
      && (start < |list| ==> (|pages| - 1) * size < |list| - start)
      && (start == |list| ==> |pages| == 1)
    decreases |list| - start
  {
    if start + size < |list| {
      var rest := PagesFrom(list, start + size, size);
      PagesAreFull(list, start + size, size);
      assert PagesFrom(list, start, size) == [list[start..start + size]] + rest;
      assert (|rest| + 1) * size == |rest| * size + size && (|rest| - 1 + 1) * size == (|rest| - 1) * size + size;
    } else {
      assert |PagesFrom(list, start, size)| * size == size;
    }
  }

  /** c is n divided by size, rounded up. */
  predicate IsCeiling(c: int, n: int, size: int) { (c - 1) * size < n <= c * size }

  /**
   Following the tokens from the empty one ends after max(1, ceil(n / size)) pages; they are the list,
   cut without gap or overlap, and every page but the last is full.
   */
  lemma WalkCoversTheList<T>(list: seq<T>, size: nat)
    requires 0 < size && |list| <= MaxInt
    ensures var pages := Walk(list, "", size);
      && Flatten(pages) == list
      && (if list == [] then |pages| == 1 else IsCeiling(|pages|, |list|, size))
      && (forall i :: 0 <= i < |pages| - 1 ==> |pages[i]| == size)
      && |pages[|pages| - 1]| <= size
  {
    WalkIsPagesFrom(list, "", size);
    PagesCover(list, 0, size);
    PagesAreFull(list, 0, size);
    assert list[0..] == list;
  }

  /** The successive tokens a client holds strictly increase. */
  lemma TokensIncrease<T>(list: seq<T>, token: string, size: nat)
    requires 0 < size && |list| <= MaxInt && Usable(list, token)
    ensures var next := NextToken(Paginate(list, ParseToken(token).value, size).next);
      next != "" ==> Usable(list, next) && ParseToken(token).value < ParseToken(next).value
  {
    NextIsUsable(list, ParseToken(token).value, size);
  }

  // ----- ListVolumes -----

  datatype Storage = Storage(id: string, sizeGiB: int, zone: string)

  datatype Entry = Entry(volumeId: string, capacity: int)

  datatype Response = Listed(entries: seq<Entry>, nextToken: string) | Aborted | Crashed

  function InZone(s: seq<Storage>, zone: string): seq<Storage> {
    if s == [] then []
    else
      var rest := InZone(s[..|s| - 1], zone);
      if s[|s| - 1].zone == zone then rest + [s[|s| - 1]] else rest
  }

  /** The filter keeps every storage of the zone, as often as it occurs, and no other. */
  lemma {:induction false} InZoneKeeps(s: seq<Storage>, zone: string, x: Storage)
    ensures multiset(InZone(s, zone))[x] == if x.zone == zone then multiset(s)[x] else 0
  {
    if s != [] {
      InZoneKeeps(s[..|s| - 1], zone, x);
      assert s == s[..|s| - 1] + [s[|s| - 1]];
    }
  }

  /** The filter keeps the order. */
  lemma {:induction false} InZoneKeepsOrder(a: seq<Storage>, b: seq<Storage>, zone: string)
    ensures InZone(a + b, zone) == InZone(a, zone) + InZone(b, zone)
  {
    if b == [] {
      assert a + b == a;
    } else {
      var front := b[..|b| - 1];
      InZoneKeepsOrder(a, front, zone);
      assert (a + b)[..|a + b| - 1] == a + front;
    }
  }

  function Entries(s: seq<Storage>): (r: seq<Entry>)
    ensures |r| == |s|
    ensures forall i :: 0 <= i < |s| ==> r[i] == Entry(s[i].id, s[i].sizeGiB * GiB)
  {
    seq(|s|, i requires 0 <= i < |s| => Entry(s[i].id, s[i].sizeGiB * GiB))
  }

  method FilterZone(s: seq<Storage>, zone: string, before: seq<Storage>) returns (r: seq<Storage>)
    ensures r == before + InZone(s, zone)
  {
    r := before;
    for i := 0 to |s|
      invariant r == before + InZone(s[..i], zone)
    {
      assert s[..i + 1][..i] == s[..i];
      if s[i].zone == zone {
        r := r + [s[i]];
      }
    }
    assert s[..|s|] == s;
  }

  method ToEntries(s: seq<Storage>) returns (entries: seq<Entry>)
    ensures entries == Entries(s)
  {
    entries := [];
    for i := 0 to |s|
      invariant |entries| == i
      invariant forall j :: 0 <= j < i ==> entries[j] == Entry(s[j].id, s[j].sizeGiB * GiB)
    {
      entries := entries + [Entry(s[i].id, s[i].sizeGiB * GiB)];
    }
  }

  /**
   The reply shows the volumes from the start on: all of them if no count is given, at most that many
   otherwise, with the index behind them as the next token if volumes are left; none, and no token, from a start behind
   the end. A negative start, or a negative count on a start within the list, crashes.
   */
  ghost predicate IsPageOf(r: Response, all: seq<Storage>, start: int, count: int) {
    if start < 0 || (start <= |all| && count < 0) then r.Crashed?
    else if start >= |all| then r == Listed([], "")
    else if count == 0 || |all| <= start + count then r == Listed(Entries(all[start..]), "")
    else r == Listed(Entries(all[start..start + count]), PrintNat(start + count))
  }

  method ListFrom(blocks: seq<Storage>, files: seq<Storage>, zone: string, start: int, maxEntries: int) returns (r: Response)
    ensures IsPageOf(r, InZone(blocks, zone) + InZone(files, zone), start, maxEntries)
  {
    var volumes := FilterZone(blocks, zone, []);
    assert volumes == InZone(blocks, zone);
    volumes := FilterZone(files, zone, volumes);
    var page := Paginate(volumes, start, maxEntries);
    if page.Panic? {
      return Crashed;
    }
    var entries := ToEntries(page.items);
    return Listed(entries, NextToken(page.next));
  }

  method ListVolumes(blocks: seq<Storage>, files: seq<Storage>, zone: string, token: string, maxEntries: int) returns (r: Response)
    ensures ParseToken(token).None? ==> r == Aborted
    ensures ParseToken(token).Some? ==> IsPageOf(r, InZone(blocks, zone) + InZone(files, zone), ParseToken(token).value, maxEntries)
  {
    var start := ParseToken(token);
    if start.None? {
      return Aborted;
    }
    r := ListFrom(blocks, files, zone, start.value, maxEntries);
  }
}
