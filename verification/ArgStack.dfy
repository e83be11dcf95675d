/** The initial user stack of a process (`process_create.c`): the command line is copied to the top
    of the stack page, cut into words in place, and argc, argv and the pointers are laid out. */
module ArgStack {
  import opened Queues
  import opened Bits
  import opened Sorting

  const NUL: Byte := 0
  const SPACE: Byte := 32

  const PAGE := 4096
  const PHYS_BASE := 0xC000_0000
  // The address of the first byte of the stack page.
  const BOTTOM := 0xBFFF_F000

  // ---- words of the command line ----

  function SkipSpaces(line: seq<Byte>, i: nat): (r: nat)
    requires i <= |line|
    ensures i <= r <= |line| && (forall j :: i <= j < r ==> line[j] == SPACE) && (r < |line| ==> line[r] != SPACE)
    decreases |line| - i
  {
    if i < |line| && line[i] == SPACE then SkipSpaces(line, i + 1) else i
  }

  function WordEnd(line: seq<Byte>, i: nat): (r: nat)
    requires i <= |line|
    ensures i <= r <= |line| && (forall j :: i <= j < r ==> line[j] != SPACE) && (r < |line| ==> line[r] == SPACE)
    decreases |line| - i
  {
    if i < |line| && line[i] != SPACE then WordEnd(line, i + 1) else i
  }

  datatype Span = Span(start: nat, end: nat)

  // Where the tokenizer goes on after a token that ends at b.
  function After(line: seq<Byte>, b: nat): (r: nat)
    requires b <= |line|
    ensures b <= r <= |line|
  {
    if b < |line| then b + 1 else b
  }

  function Spans(line: seq<Byte>, i: nat): (r: seq<Span>)
    requires i <= |line|
    decreases |line| - i
  {
    var a := SkipSpaces(line, i);
    if a == |line| then [] else
      var b := WordEnd(line, a);
      [Span(a, b)] + Spans(line, After(line, b))
  }

  // A word: not empty, no space in it, and a space or the end around it.
  ghost predicate IsWord(line: seq<Byte>, i: nat, s: Span) {
    && i <= s.start < s.end <= |line| && (forall j :: s.start <= j < s.end ==> line[j] != SPACE)
    && (s.start == i || line[s.start - 1] == SPACE) && (s.end == |line| || line[s.end] == SPACE)
  }

  ghost predicate Covers(s: Span, j: nat) { s.start <= j < s.end }

  lemma {:induction false} SpansWords(line: seq<Byte>, i: nat, k: nat)
    requires i <= |line| && k < |Spans(line, i)|
    ensures IsWord(line, i, Spans(line, i)[k])
    decreases k
  {
    if k > 0 { SpansWords(line, After(line, WordEnd(line, SkipSpaces(line, i))), k - 1); }
  }

  lemma {:induction false} SpansOrder(line: seq<Byte>, i: nat, k: nat, m: nat)
    requires i <= |line| && k < m < |Spans(line, i)|
    ensures Spans(line, i)[k].end < Spans(line, i)[m].start
    decreases k
  {
    var i' := After(line, WordEnd(line, SkipSpaces(line, i)));
    if k > 0 { SpansOrder(line, i', k - 1, m - 1); } else { SpansWords(line, i', m - 1); }
  }

  lemma {:induction false} SpansAll(line: seq<Byte>, i: nat, j: nat) returns (k: nat)
    requires i <= j < |line| && line[j] != SPACE
    ensures k < |Spans(line, i)| && Covers(Spans(line, i)[k], j)
    decreases |line| - i
  {
    var b := WordEnd(line, SkipSpaces(line, i));
    if j < b {
      k := 0;
    } else {
      var k' := SpansAll(line, After(line, b), j);
      k := k' + 1;
    }
  }

  /** The tokens are the words of the line, in order, and all of them. */
  lemma SpansAreWords(line: seq<Byte>)
    ensures var ss := Spans(line, 0);
            && (forall k :: 0 <= k < |ss| ==> IsWord(line, 0, ss[k]))
            && (forall k, m :: 0 <= k < m < |ss| ==> ss[k].end < ss[m].start)
            && (forall j :: 0 <= j < |line| && line[j] != SPACE ==> exists k :: 0 <= k < |ss| && Covers(ss[k], j))
  {
    var ss := Spans(line, 0);
    forall k | 0 <= k < |ss| ensures IsWord(line, 0, ss[k]) { SpansWords(line, 0, k); }
    forall k, m | 0 <= k < m < |ss| ensures ss[k].end < ss[m].start { SpansOrder(line, 0, k, m); }
    forall j | 0 <= j < |line| && line[j] != SPACE ensures exists k :: 0 <= k < |ss| && Covers(ss[k], j) {
      var k := SpansAll(line, 0, j);
    }
  }

  // ---- words of memory ----

  // Four bytes, low byte first.
  function Encode(v: nat): (r: Elem)
    ensures |r| == 4
  {
    [v % 256, v / 256 % 256, v / 256 / 256 % 256, v / 256 / 256 / 256 % 256]
  }

  function Decode(g: Elem): int
    requires |g| == 4
  {
    (g[0] as int) + 256 * (g[1] as int) + 65536 * (g[2] as int) + 16777216 * (g[3] as int)
  }

  lemma WordRoundTrip(v: nat)
    requires v < 0x1_0000_0000
    ensures Decode(Encode(v)) == v
  {
    var a, b, c := v / 256, v / 256 / 256, v / 256 / 256 / 256;
    assert v == 256 * a + v % 256 && a == 256 * b + a % 256 && b == 256 * c + b % 256 && c % 256 == c;
  }

  // The words below the given one, and storing into one of them.
  method StoreWord(page: array<Byte>, w: nat, v: nat, ghost top: nat)
    requires w < top && Holds(page, top, 4)
    modifies page
    ensures View(page, top, 4) == old(View(page, top, 4))[w := Encode(v)]
    ensures forall x :: 4 * top <= x < page.Length ==> page[x] == old(page[x])
  {
    ghost var was := page[..];
    var g := Encode(v);
    page[4 * w], page[4 * w + 1], page[4 * w + 2], page[4 * w + 3] := g[0], g[1], g[2], g[3];
    forall k | 0 <= k < top ensures Group(page[..], k, 4) == if k == w then g else Group(was, k, 4) {}
  }

  // ---- the tokenizer ----

  // From the given place on the text at base is still the line's.
  ghost predicate Untouched(page: seq<Byte>, base: nat, line: seq<Byte>, from: nat) {
    && base + |line| < |page| && from <= |line| && NUL !in line
    && (forall j :: from <= j < |line| ==> page[base + j] == line[j]) && page[base + |line|] == NUL
  }

  // `strtok_r` with one space as delimiter
  method NextToken(page: array<Byte>, base: nat, from: nat, ghost line: seq<Byte>) returns (token: Option<nat>, save: nat)
    requires Untouched(page[..], base, line, from)
    modifies page
    ensures from <= save <= |line| && Untouched(page[..], base, line, save)
    ensures var a := SkipSpaces(line, from);
            && (a == |line| ==> token == None && page[..] == old(page[..]))
            && (a < |line| ==> token == Some(a) && save == After(line, WordEnd(line, a)))
            && (a < |line| ==> page[..] == old(page[..])[base + WordEnd(line, a) := NUL])
  {
    var s := from;
    while page[base + s] == SPACE || page[base + s] == NUL
      invariant from <= s <= |line| && SkipSpaces(line, from) == SkipSpaces(line, s)
      decreases |line| - s
    {
      if page[base + s] == NUL { return None, s; }
      s := s + 1;
    }
    var t := s;
    while !(page[base + s] == SPACE || page[base + s] == NUL)
      invariant t <= s <= |line| && WordEnd(line, t) == WordEnd(line, s)
      decreases |line| - s
    {
      s := s + 1;
    }
    if page[base + s] != NUL {
      page[base + s] := NUL;
      return Some(t), s + 1;
    }
    return Some(t), s;
  }

  // ---- the stack as it grows ----

  // Masking with 0xfffffff0; the page starts at a multiple of 16.
  function Down16(x: nat): (r: nat)
    ensures r <= x < r + 16 && r % 16 == 0
  {
    x - x % 16
  }

  function Up16(x: nat): (r: nat)
    ensures r < x + 16 && x <= r && r % 16 == 0
  {
    if x % 16 == 0 then x else Down16(x + 16)
  }

  // ws are the words pushed below word top, the first one highest.
  ghost predicate Pushed(gs: seq<Elem>, top: nat, ws: seq<nat>) {
    |gs| == top && |ws| <= top && forall j :: 0 <= j < |ws| ==> gs[top - 1 - j] == Encode(ws[j])
  }

  method Push(page: array<Byte>, v: nat, ghost top: nat, w: nat, ghost ws: seq<nat>) returns (w': nat)
    requires Holds(page, top, 4) && Pushed(View(page, top, 4), top, ws) && w == top - |ws| > 0
    modifies page
    ensures w' == w - 1 && Pushed(View(page, top, 4), top, ws + [v])
    ensures forall x :: 4 * top <= x < page.Length ==> page[x] == old(page[x])
  {
    w' := w - 1;
    StoreWord(page, w', v, top);
  }

  // The spans of the line stand at base as strings.
  ghost predicate Cut(page: seq<Byte>, base: nat, line: seq<Byte>, ss: seq<Span>) {
    && base + |line| < |page|
    && forall k :: 0 <= k < |ss| ==> CutOne(page, base, line, ss[k])
  }

  ghost predicate CutOne(page: seq<Byte>, base: nat, line: seq<Byte>, s: Span)
    requires base + |line| < |page|
  {
    && s.start < s.end <= |line| && page[base + s.end] == NUL
    && forall j :: s.start <= j < s.end ==> page[base + j] == line[j]
  }

  // The spans are behind the place where the tokenizer goes on.
  ghost predicate Behind(line: seq<Byte>, ss: seq<Span>, save: nat) {
    forall k :: 0 <= k < |ss| ==> ss[k].end < save || save == |line|
  }

  // The tokens found so far and those to come.
  ghost function Found(line: seq<Byte>, token: Option<nat>): seq<Span>
    requires token.Some? ==> token.value <= |line|
  {
    if token.None? then [] else [Span(token.value, WordEnd(line, token.value))]
  }

  function Pointers(ss: seq<Span>, base: nat): seq<nat> {
    seq(|ss|, k requires 0 <= k < |ss| => BOTTOM + base + ss[k].start)
  }

  lemma CutMore(page: seq<Byte>, page': seq<Byte>, base: nat, line: seq<Byte>, ss: seq<Span>, from: nat, a: nat, b: nat)
    requires Untouched(page, base, line, from) && Cut(page, base, line, ss) && Behind(line, ss, from)
    requires a == SkipSpaces(line, from) < |line| && b == WordEnd(line, a) && page' == page[base + b := NUL]
    ensures Cut(page', base, line, ss + [Span(a, b)]) && Behind(line, ss + [Span(a, b)], After(line, b))
  {
    forall k | 0 <= k < |ss| ensures CutOne(page', base, line, ss[k]) { assert CutOne(page, base, line, ss[k]); }
    assert CutOne(page', base, line, Span(a, b));
  }

  // Text above top does not matter to the words below it, and the other way round.
  lemma BelowSame(s: seq<Byte>, s': seq<Byte>, top: nat)
    requires |s'| == |s| && 4 * top <= |s| && forall x :: 0 <= x < 4 * top ==> s'[x] == s[x]
    ensures Elems(s', top, 4) == Elems(s, top, 4)
  {
    forall k | 0 <= k < top ensures Group(s', k, 4) == Group(s, k, 4) {}
  }

  lemma AboveSame(s: seq<Byte>, s': seq<Byte>, base: nat, line: seq<Byte>, ss: seq<Span>, from: nat)
    requires |s'| == |s| && forall x :: base <= x < |s| ==> s'[x] == s[x]
    ensures Cut(s, base, line, ss) ==> Cut(s', base, line, ss)
    ensures Untouched(s, base, line, from) ==> Untouched(s', base, line, from)
  {
    if Cut(s, base, line, ss) {
      forall k | 0 <= k < |ss| ensures CutOne(s', base, line, ss[k]) { assert CutOne(s, base, line, ss[k]); }
    }
  }

  // What holds between two turns of the loop over the tokens.
  ghost predicate Turn(page: seq<Byte>, base: nat, line: seq<Byte>, top: nat, done: seq<Span>, token: Option<nat>, save: nat) {
    && 4 * top <= base && base + |line| < |page| && save <= |line| && (token.Some? ==> token.value < |line|)
    && Untouched(page, base, line, save) && Cut(page, base, line, done + Found(line, token))
    && Behind(line, done + Found(line, token), save)
    && Pushed(Elems(page, top, 4), top, [0, 0] + Pointers(done, base))
    && Spans(line, 0) == done + Found(line, token) + (if token.None? then [] else Spans(line, save))
  }

  // The same before the next call of the tokenizer.
  ghost predicate Ready(page: seq<Byte>, base: nat, line: seq<Byte>, top: nat, done: seq<Span>, save: nat) {
    && 4 * top <= base && base + |line| < |page| && save <= |line|
    && Untouched(page, base, line, save) && Cut(page, base, line, done) && Behind(line, done, save)
    && Pushed(Elems(page, top, 4), top, [0, 0] + Pointers(done, base))
    && Spans(line, 0) == done + Spans(line, save)
  }

  lemma AfterNext(p: seq<Byte>, p': seq<Byte>, base: nat, line: seq<Byte>, top: nat, done: seq<Span>, from: nat,
                  token: Option<nat>, save: nat)
    requires Ready(p, base, line, top, done, from) && from <= save <= |line| && Untouched(p', base, line, save)
    requires var a := SkipSpaces(line, from);
             && (a == |line| ==> token == None && p' == p)
             && (a < |line| ==> token == Some(a) && save == After(line, WordEnd(line, a)))
             && (a < |line| ==> p' == p[base + WordEnd(line, a) := NUL])
    ensures Turn(p', base, line, top, done, token, save)
  {
    var a := SkipSpaces(line, from);
    if a < |line| {
      CutMore(p, p', base, line, done, from, a, WordEnd(line, a));
      BelowSame(p, p', top);
      assert Spans(line, from) == Found(line, token) + Spans(line, save);
      assert done + (Found(line, token) + Spans(line, save)) == done + Found(line, token) + Spans(line, save);
    } else {
      assert done + Found(line, token) == done && done + [] == done;
    }
  }

  lemma AfterPush(p: seq<Byte>, p': seq<Byte>, base: nat, line: seq<Byte>, top: nat, done: seq<Span>, token: nat, save: nat)
    requires Turn(p, base, line, top, done, Some(token), save) && |p'| == |p| && 4 * top <= |p|
    requires forall x :: 4 * top <= x < |p| ==> p'[x] == p[x]
    requires Pushed(Elems(p', top, 4), top, [0, 0] + Pointers(done, base) + [BOTTOM + base + token])
    ensures Ready(p', base, line, top, done + Found(line, Some(token)), save)
  {
    var done' := done + Found(line, Some(token));
    hide Untouched, Cut, Behind, Spans, Elems, Pushed, WordEnd;
    AboveSame(p, p', base, line, done', save);
    MorePointers(done, Found(line, Some(token))[0], base);
    assert Ready(p', base, line, top, done', save);
  }

  lemma MorePointers(done: seq<Span>, s: Span, base: nat)
    ensures [0, 0] + Pointers(done, base) + [BOTTOM + base + s.start] == [0, 0] + Pointers(done + [s], base)
  {
    assert Pointers(done + [s], base) == Pointers(done, base) + [BOTTOM + base + s.start];
  }

  // the loop over the tokens; not ok when the next store would be below the page
  method PushTokens(page: array<Byte>, base: nat, ghost line: seq<Byte>, ghost top: nat, w0: nat)
    returns (ok: bool, w: nat, argc: nat)
    requires Holds(page, top, 4) && Ready(page[..], base, line, top, [], 0) && w0 == top - 2
    modifies page
    ensures ok <==> |Spans(line, 0)| <= w0
    ensures ok ==> w == top - 2 - |Spans(line, 0)| && argc == |Spans(line, 0)| && Cut(page[..], base, line, Spans(line, 0))
    ensures ok ==> Pushed(View(page, top, 4), top, [0, 0] + Pointers(Spans(line, 0), base))
  {
    hide Turn, Pushed, Cut, Untouched, Behind, Spans, Pointers, Elems, SkipSpaces, WordEnd, After;
    ok, w, argc := true, w0, 0;
    ghost var done: seq<Span> := [];
    ghost var p := page[..];
    var token, save := NextToken(page, base, 0, line);
    AfterNext(p, page[..], base, line, top, done, 0, token, save);
    while token.Some?
      invariant Turn(page[..], base, line, top, done, token, save)
      invariant ok && argc == |done| && w == top - 2 - argc
      decreases |Spans(line, 0)| - |done|
    {
      TurnCounts(page[..], base, line, top, done, token, save);
      if w == 0 { return false, w, argc; }
      p := page[..];
      w := Push(page, BOTTOM + base + token.value, top, w, [0, 0] + Pointers(done, base));
      AfterPush(p, page[..], base, line, top, done, token.value, save);
      done, argc := done + Found(line, token), argc + 1;
      p := page[..];
      ghost var from := save;
      token, save := NextToken(page, base, save, line);
      AfterNext(p, page[..], base, line, top, done, from, token, save);
    }
    TurnEnds(page[..], base, line, top, done, save);
  }

  lemma TurnCounts(page: seq<Byte>, base: nat, line: seq<Byte>, top: nat, done: seq<Span>, token: Option<nat>, save: nat)
    requires Turn(page, base, line, top, done, token, save) && token.Some?
    ensures |done| < |Spans(line, 0)| && token.value <= |line| && |Found(line, token)| == 1 && |Pointers(done, base)| == |done|
    ensures 4 * top <= |page| && Pushed(Elems(page, top, 4), top, [0, 0] + Pointers(done, base))
  {
  }

  lemma TurnEnds(page: seq<Byte>, base: nat, line: seq<Byte>, top: nat, done: seq<Span>, save: nat)
    requires Turn(page, base, line, top, done, None, save)
    ensures done == Spans(line, 0) && Cut(page, base, line, done) && 4 * top <= |page|
    ensures Pushed(Elems(page, top, 4), top, [0, 0] + Pointers(done, base))
  {
    assert done + [] + [] == done;
  }

  // ---- turning the words round ----

  // The words from lo on reversed.
  ghost predicate Turned(gs: seq<Elem>, gs': seq<Elem>, lo: nat) {
    |gs'| == |gs| && lo <= |gs| && forall j :: lo <= j < |gs| ==> gs'[j] == gs[lo + |gs| - 1 - j]
  }

  // The outer i words on both ends have changed places.
  ghost predicate HalfTurned(gs: seq<Elem>, gs': seq<Elem>, lo: nat, i: nat) {
    && |gs'| == |gs| && lo + 2 * i <= |gs|
    && (forall j :: lo <= j < lo + i || |gs| - i <= j < |gs| ==> gs'[j] == gs[lo + |gs| - 1 - j])
    && (forall j :: lo + i <= j < |gs| - i ==> gs'[j] == gs[j])
  }

  lemma TurnStep(gs: seq<Elem>, gs': seq<Elem>, lo: nat, i: nat)
    requires HalfTurned(gs, gs', lo, i) && lo + 2 * (i + 1) <= |gs|
    ensures HalfTurned(gs, Swapped(gs', lo + i, |gs| - 1 - i), lo, i + 1)
  {
  }

  lemma TurnDone(gs: seq<Elem>, gs': seq<Elem>, lo: nat, i: nat)
    requires HalfTurned(gs, gs', lo, i) && |gs| <= lo + 2 * i + 1
    ensures Turned(gs, gs', lo)
  {
  }

  lemma TurnStart(gs: seq<Elem>, lo: nat)
    requires lo <= |gs|
    ensures HalfTurned(gs, gs, lo, 0)
  {
  }

  lemma HalfOf(counter: nat, n: nat)
    requires counter == 4 * n
    ensures counter / 2 == 2 * n && counter / 4 == n
  {
  }

  // one turn of the swapping loop
  method SwapWords(page: array<Byte>, lo: nat, i: nat, end: nat, ghost top: nat, ghost gs: seq<Elem>)
    requires Holds(page, top, 4) && end == top && lo + 2 * (i + 1) <= top == |gs| && HalfTurned(gs, View(page, top, 4), lo, i)
    modifies page
    ensures HalfTurned(gs, View(page, top, 4), lo, i + 1)
    ensures forall x :: 4 * top <= x < page.Length ==> page[x] == old(page[x])
  {
    TurnStep(gs, View(page, top, 4), lo, i);
    hide HalfTurned, Elems, Swapped, Group;
    Swap(page, lo + i + 1, end - i, top, 4);
  }

  // the swapping loop; counter bytes are a whole number of words
  method Reverse(page: array<Byte>, lo: nat, counter: nat, ghost top: nat)
    requires Holds(page, top, 4) && lo <= top && counter == 4 * (top - lo) && (top - lo) % 2 == 0
    modifies page
    ensures Turned(old(View(page, top, 4)), View(page, top, 4), lo)
    ensures forall x :: 4 * top <= x < page.Length ==> page[x] == old(page[x])
  {
    ghost var gs := View(page, top, 4);
    TurnStart(gs, lo);
    hide HalfTurned, Turned, Elems, View, Swapped, Group;
    HalfOf(counter, top - lo);
    var i, half, end := 0, counter / 2, lo + counter / 4;
    while 4 * i < half
      invariant 0 <= i && 2 * i <= top - lo
      invariant forall x :: 4 * top <= x < page.Length ==> page[x] == old(page[x])
      invariant HalfTurned(gs, View(page, top, 4), lo, i)
    {
      SwapWords(page, lo, i, end, top, gs);
      i := i + 1;
    }
    TurnDone(gs, View(page, top, 4), lo, i);
  }

  // ---- the stack ----

  function Argc(line: seq<Byte>): nat { |Spans(line, 0)| }

  // The first byte of the line's copy, and the aligned place below it.
  function Base(line: seq<Byte>): int { PAGE - (|line| + 1) }

  /** The line, its pointers and the fixed words fit the page; the slot for the return address is
      not written to. */
  ghost predicate Fits(line: seq<Byte>) {
    |line| + 1 <= PAGE && Up16(4 * (Argc(line) + 3)) <= Down16(Base(line))
  }

  ghost function WordAt(page: seq<Byte>, i: nat): int
    requires i + 4 <= |page|
  {
    Decode(page[i..i + 4])
  }

  ghost predicate StringAt(page: seq<Byte>, address: int, s: seq<Byte>) {
    var i := address - BOTTOM;
    0 <= i && i + |s| < |page| && page[i..i + |s|] == s && page[i + |s|] == NUL
  }

  /** From the given place on: argc at a multiple of 16, argv, the pointers to the words of the line
      in order, and a null pointer. */
  ghost predicate LaidAt(page: seq<Byte>, at: nat, line: seq<Byte>) {
    var ss := Spans(line, 0);
    && |page| == PAGE && at + 4 * (|ss| + 3) <= PAGE && (BOTTOM + at) % 16 == 0
    && WordAt(page, at) == |ss| && WordAt(page, at + 4) == BOTTOM + at + 8
    && (forall k :: 0 <= k < |ss| ==> ArgAt(page, at, k, line, ss[k]))
    && WordAt(page, at + 8 + 4 * |ss|) == 0
  }

  ghost predicate ArgAt(page: seq<Byte>, at: nat, k: nat, line: seq<Byte>, s: Span) {
    at + 12 + 4 * k <= |page| && s.start <= s.end <= |line| && StringAt(page, WordAt(page, at + 8 + 4 * k), line[s.start..s.end])
  }

  // the line's copy at the top of the page
  method CopyLine(page: array<Byte>, line: seq<Byte>) returns (base: nat)
    requires page.Length == PAGE && |line| + 1 <= PAGE && NUL !in line
    modifies page
    ensures base == Base(line) && Untouched(page[..], base, line, 0)
  {
    base := PAGE - (|line| + 1);
    var j := 0;
    while j < |line|
      invariant 0 <= j <= |line| && forall m :: base <= m < base + j ==> page[m] == line[m - base]
    {
      page[base + j] := line[j];
      j := j + 1;
    }
    page[base + |line|] := NUL;
  }

  /** `start_process`'s stack, for every command line there can be: the line is a string of a page.
      None if a store would be below the stack's page, and that is so exactly for the lines that do
      not fit; otherwise the stack pointer, below the layout by the slot for the return address. */
  method BuildStack(page: array<Byte>, line: seq<Byte>) returns (esp: Option<int>)
    requires page.Length == PAGE && NUL !in line && |line| < PAGE
    modifies page
    ensures esp.Some? <==> Fits(line)
    ensures esp.Some? ==> esp.value + 4 >= 0 && LaidAt(page[..], esp.value + 4, line)
  {
    RoomIff(line);
    hide Spans, Pushed, Cut, Untouched, Ready, Pointers, Elems, LaidAt, Up16, Down16, Fits;
    var base := CopyLine(page, line);
    var top := Down16(base) / 4;
    if top < 2 { return None; }
    var w := PushSlots(page, base, line, top);
    var ok, argc;
    ok, w, argc := PushTokens(page, base, line, top, w);
    if !ok || w == 0 { return None; }
    ghost var ws, p := [0, 0] + Pointers(Spans(line, 0), base), page[..];
    w := Push(page, 0, top, w, ws);
    AboveSame(p, page[..], base, line, Spans(line, 0), 0);
    var counter := Up16(4 * (argc + 3));
    var lo := Down16(4 * w) / 4;
    Aligned(argc, top, w, counter, lo);
    FinishStack(page, base, line, top, lo, counter, argc);
    return Some(4 * lo - 4);
  }

  // Three words more than there are tokens have to be stored below the line.
  lemma RoomIff(line: seq<Byte>)
    requires |line| < PAGE
    ensures Base(line) >= 0
    ensures var top := Down16(Base(line)) / 4;
            top % 4 == 0 && 4 * top <= Base(line) && (Fits(line) <==> Argc(line) + 3 <= top)
  {
    var t, c := Down16(Base(line)), Up16(4 * (Argc(line) + 3));
    var i := Quotient(t, 16);
    var j := Quotient(c, 16);
    Quarters(t, i);
    hide Spans;
    assert 4 * (Argc(line) + 3) <= t <==> j <= i;
  }

  // ---- lines that do not fit ----

  // n words of one letter.
  function Letters(n: nat): seq<Byte> { seq(2 * n, i => if i % 2 == 0 then 97 else SPACE) }

  lemma {:induction false} LettersCount(n: nat, k: nat)
    requires k <= n
    ensures |Spans(Letters(n), 2 * k)| == n - k
    decreases n - k
  {
    var line := Letters(n);
    if k < n {
      assert line[2 * k] == 97 && line[2 * k + 1] == SPACE;
      assert SkipSpaces(line, 2 * k) == 2 * k && WordEnd(line, 2 * k) == WordEnd(line, 2 * k + 1) == 2 * k + 1;
      assert After(line, 2 * k + 1) == 2 * (k + 1);
      LettersCount(n, k + 1);
    }
  }

  /** A command line of 2000 bytes whose stack does not fit the page. */
  lemma TooManyWords(n: nat)
    requires n == 1000
    ensures |Letters(n)| == 2000 && NUL !in Letters(n) && !Fits(Letters(n))
  {
    LettersCount(n, 0);
    RoomIff(Letters(n));
  }

  // the two words set later
  method PushSlots(page: array<Byte>, base: nat, ghost line: seq<Byte>, top: nat) returns (w: nat)
    requires page.Length == PAGE && Untouched(page[..], base, line, 0) && 4 * top <= base && 2 <= top && Holds(page, top, 4)
    modifies page
    ensures w == top - 2 && Ready(page[..], base, line, top, [], 0)
  {
    ghost var p := page[..];
    w := Push(page, 0, top, top, []);
    w := Push(page, 0, top, w, [] + [0]);
    AboveSame(p, page[..], base, line, [], 0);
    assert [] + [0] + [0] == [0, 0] + Pointers([], base);
    assert [] + Spans(line, 0) == Spans(line, 0);
  }

  // The words from lo on, up to the null pointer.
  ghost predicate Words(gs: seq<Elem>, lo: nat, argc: nat, argv: nat, ps: seq<nat>) {
    && lo + 3 + |ps| <= |gs| && gs[lo] == Encode(argc) && gs[lo + 1] == Encode(argv)
    && (forall k :: 0 <= k < |ps| ==> gs[lo + 2 + k] == Encode(ps[k]))
    && gs[lo + 2 + |ps|] == Encode(0)
  }

  // What was pushed down reads upwards once turned round.
  lemma TurnedPushed(gs: seq<Elem>, gs': seq<Elem>, top: nat, lo: nat, ps: seq<nat>)
    requires Pushed(gs, top, [0, 0] + ps + [0]) && Turned(gs, gs', lo) && lo + 3 + |ps| <= top
    ensures Words(gs', lo, 0, 0, ps)
  {
    var ws := [0, 0] + ps + [0];
    forall j | 0 <= j < |ws| ensures gs'[lo + j] == Encode(ws[j]) { assert gs'[lo + j] == gs[top - 1 - j]; }
    forall k | 0 <= k < |ps| ensures gs'[lo + 2 + k] == Encode(ps[k]) { assert ws[2 + k] == ps[k]; }
    assert gs'[lo] == Encode(ws[0]) && gs'[lo + 1] == Encode(ws[1]) && gs'[lo + 2 + |ps|] == Encode(ws[2 + |ps|]);
  }

  lemma WordOf(p: seq<Byte>, top: nat, i: nat, v: nat)
    requires 4 * top <= |p| && i < top && Elems(p, top, 4)[i] == Encode(v) && v < 0x1_0000_0000
    ensures WordAt(p, 4 * i) == v
  {
    assert p[4 * i..4 * i + 4] == Group(p, i, 4);
    WordRoundTrip(v);
  }

  lemma ArgLaid(p: seq<Byte>, base: nat, line: seq<Byte>, top: nat, lo: nat, k: nat, s: Span)
    requires |p| == PAGE && 4 * top <= |p| && base + |line| < PAGE && CutOne(p, base, line, s)
    requires lo + 2 + k < top && Elems(p, top, 4)[lo + 2 + k] == Encode(BOTTOM + base + s.start)
    ensures ArgAt(p, 4 * lo, k, line, s)
  {
    WordOf(p, top, lo + 2 + k, BOTTOM + base + s.start);
    assert 4 * (lo + 2 + k) == 4 * lo + 8 + 4 * k;
    var i, word := base + s.start, line[s.start..s.end];
    forall j | 0 <= j < |word| ensures p[i..i + |word|][j] == word[j] { assert p[base + (s.start + j)] == line[s.start + j]; }
  }

  lemma MultipleOf16(lo: nat)
    requires lo % 4 == 0
    ensures (BOTTOM + 4 * lo) % 16 == 0
  {
  }

  // Words of memory from words of the page.
  lemma WordsLaid(p: seq<Byte>, top: nat, lo: nat, argc: nat, ps: seq<nat>)
    requires |p| == PAGE && 4 * top <= |p| && argc == |ps| && lo % 4 == 0
    requires Words(Elems(p, top, 4), lo, argc, BOTTOM + 4 * (lo + 2), ps)
    ensures 4 * lo + 4 * (argc + 3) <= PAGE && (BOTTOM + 4 * lo) % 16 == 0
    ensures WordAt(p, 4 * lo) == argc && WordAt(p, 4 * lo + 4) == BOTTOM + 4 * lo + 8
    ensures WordAt(p, 4 * lo + 8 + 4 * argc) == 0
  {
    WordOf(p, top, lo, argc);
    WordOf(p, top, lo + 1, BOTTOM + 4 * (lo + 2));
    WordOf(p, top, lo + 2 + argc, 0);
    MultipleOf16(lo);
  }

  lemma ArgsLaid(p: seq<Byte>, base: nat, line: seq<Byte>, top: nat, lo: nat, ss: seq<Span>)
    requires |p| == PAGE && 4 * top <= |p| && base + |line| < PAGE
    requires forall k :: 0 <= k < |ss| ==> CutOne(p, base, line, ss[k])
    requires Words(Elems(p, top, 4), lo, |ss|, BOTTOM + 4 * (lo + 2), Pointers(ss, base))
    ensures forall k :: 0 <= k < |ss| ==> ArgAt(p, 4 * lo, k, line, ss[k])
  {
    forall k | 0 <= k < |ss| ensures ArgAt(p, 4 * lo, k, line, ss[k]) {
      assert Pointers(ss, base)[k] == BOTTOM + base + ss[k].start;
      ArgLaid(p, base, line, top, lo, k, ss[k]);
    }
  }

  lemma LaidNow(p: seq<Byte>, base: nat, line: seq<Byte>, top: nat, lo: nat)
    requires |p| == PAGE && 4 * top <= |p| && lo % 4 == 0 && base + |line| < PAGE
    requires forall k :: 0 <= k < |Spans(line, 0)| ==> CutOne(p, base, line, Spans(line, 0)[k])
    requires Words(Elems(p, top, 4), lo, Argc(line), BOTTOM + 4 * (lo + 2), Pointers(Spans(line, 0), base))
    ensures LaidAt(p, 4 * lo, line)
  {
    hide Spans, Elems, WordAt, ArgAt, Words, CutOne, Pointers;
    PointersCount(Spans(line, 0), base);
    WordsLaid(p, top, lo, Argc(line), Pointers(Spans(line, 0), base));
    ArgsLaid(p, base, line, top, lo, Spans(line, 0));
  }

  lemma PointersCount(ss: seq<Span>, base: nat)
    ensures |Pointers(ss, base)| == |ss|
  {
  }

  // the reversal, and argv and argc
  method FinishStack(page: array<Byte>, base: nat, ghost line: seq<Byte>, ghost top: nat, lo: nat, counter: nat, argc: nat)
    requires page.Length == PAGE && Holds(page, top, 4) && Cut(page[..], base, line, Spans(line, 0)) && 4 * top <= base
    requires Pushed(View(page, top, 4), top, [0, 0] + Pointers(Spans(line, 0), base) + [0]) && argc == Argc(line)
    requires counter == 4 * (top - lo) && lo + 3 + argc <= top && lo % 4 == 0 && (top - lo) % 2 == 0
    modifies page
    ensures LaidAt(page[..], 4 * lo, line)
  {
    ghost var ss, p := Spans(line, 0), page[..];
    ghost var gs, ps := View(page, top, 4), Pointers(ss, base);
    assert |ps| == argc;
    hide Spans, Pushed, Cut, Pointers, Elems, LaidAt, Turned, Words;
    Reverse(page, lo, counter, top);
    TurnedPushed(gs, View(page, top, 4), top, lo, ps);
    SetFirst(page, lo, argc, top, ps);
    AboveSame(p, page[..], base, line, ss, 0);
    CutAll(page[..], base, line, ss);
    LaidNow(page[..], base, line, top, lo);
  }

  lemma CutAll(p: seq<Byte>, base: nat, line: seq<Byte>, ss: seq<Span>)
    requires Cut(p, base, line, ss)
    ensures base + |line| < |p| && forall k :: 0 <= k < |ss| ==> CutOne(p, base, line, ss[k])
  {
  }

  method SetFirst(page: array<Byte>, lo: nat, argc: nat, ghost top: nat, ghost ps: seq<nat>)
    requires Holds(page, top, 4) && Words(View(page, top, 4), lo, 0, 0, ps)
    modifies page
    ensures Words(View(page, top, 4), lo, argc, BOTTOM + 4 * (lo + 2), ps)
    ensures forall x :: 4 * top <= x < page.Length ==> page[x] == old(page[x])
  {
    StoreWord(page, lo + 1, BOTTOM + 4 * (lo + 2), top);
    StoreWord(page, lo, argc, top);
  }

  lemma SameQuotient(e: int, t: int, c: int, n: int)
    requires 16 * e <= 16 * t - 4 * n < 16 * e + 16 && 4 * n <= 16 * c < 4 * n + 16
    ensures c == t - e
  {
  }

  lemma Quotient(x: nat, m: nat) returns (q: nat)
    requires m > 0 && x % m == 0
    ensures x == m * q
  {
    q := x / m;
  }

  lemma Quarters(x: nat, e: nat)
    requires x == 16 * e
    ensures x / 4 == 4 * e && (4 * e) % 4 == 0
  {
  }

  lemma Even(x: int, c: int)
    requires x == 4 * c
    ensures x % 2 == 0
  {
  }

  // Both roundings agree.
  lemma Aligned(argc: nat, top: nat, w: nat, counter: nat, lo: nat)
    requires top % 4 == 0 && w == top - 3 - argc >= 0 && counter == Up16(4 * (argc + 3)) && lo == Down16(4 * w) / 4
    ensures counter == 4 * (top - lo) && lo <= w && lo % 4 == 0 && (top - lo) % 2 == 0
  {
    hide *;
    var d := Down16(4 * w);
    var e := Quotient(d, 16);
    var t := Quotient(top, 4);
    var c := Quotient(counter, 16);
    SameQuotient(e, t, c, argc + 3);
    Quarters(d, e);
    Even(top - lo, c);
  }
}
