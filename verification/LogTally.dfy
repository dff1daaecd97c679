/**
 * What the log aggregator of 17_log_reader/main.c accumulates: the effects of the locked
 * updates a parsed line gives rise to, and the fact that their order does not matter.
 */
module LogTally {
  import opened Wrappers

  /** One more than the largest value of a 64-bit size_t. */
  const SIZE_MODULUS: nat := 0x1_0000_0000_0000_0000

  type size_t = n: nat | n < SIZE_MODULUS

  /** A C string, without its terminating NUL. */
  type Text = seq<byte>

  /** A line that parse_log_line accepted. */
  datatype Line = Line(url: Text, bytes: size_t, referer: Text)

  /** One update of shared data, made under the lock of that data. */
  datatype Op =
    | AddTotal(bytes: size_t)
    | AddUrl(url: Text, bytes: size_t)
    | IncRef(referer: Text)

  datatype Tally = Tally(total: size_t, urls: map<Text, size_t>, refs: map<Text, nat>)

  const EMPTY := Tally(0, map[], map[])

  function Plus(a: size_t, b: size_t): size_t {
    (a + b) % SIZE_MODULUS
  }

  function Apply(t: Tally, op: Op): Tally {
    match op
    case AddTotal(b) => t.(total := Plus(t.total, b))
    case AddUrl(u, b) => t.(urls := t.urls[u := if u in t.urls then Plus(t.urls[u], b) else b])
    case IncRef(r) => t.(refs := t.refs[r := if r in t.refs then t.refs[r] + 1 else 1])
  }

  /** The updates a worker makes for one line, in its order. */
  function LineOps(line: Line): seq<Op> {
    (if line.bytes > 0 then [AddTotal(line.bytes), AddUrl(line.url, line.bytes)] else []) + [IncRef(line.referer)]
  }

  function FileOps(lines: seq<Line>): seq<Op> {
    if lines == [] then [] else LineOps(lines[0]) + FileOps(lines[1..])
  }

  /** A file that cannot be opened contributes nothing. */
  function OpsOf(file: Option<seq<Line>>): seq<Op> {
    match file
    case None => []
    case Some(lines) => FileOps(lines)
  }

  /** All updates of a sequential pass over the files. */
  function AllOps(files: seq<Option<seq<Line>>>): seq<Op> {
    if files == [] then [] else AllOps(files[..|files| - 1]) + OpsOf(files[|files| - 1])
  }

  /** The tally after the updates, in the order given. */
  function Fold(ops: seq<Op>): Tally {
    if ops == [] then EMPTY else Apply(Fold(ops[..|ops| - 1]), ops[|ops| - 1])
  }

  // ------------------------------------------------ the order is irrelevant

  lemma PlusSum(sum: nat, b: nat)
    ensures (sum % SIZE_MODULUS + b) % SIZE_MODULUS == (sum + b) % SIZE_MODULUS
  {
  }

  lemma PlusCommutes(t: size_t, a: size_t, b: size_t)
    ensures Plus(Plus(t, a), b) == Plus(Plus(t, b), a)
  {
    PlusSum(t + a, b);
    PlusSum(t + b, a);
  }

  lemma UrlsCommute(t: Tally, x: Op, y: Op)
    requires x.AddUrl? && y.AddUrl?
    ensures Apply(Apply(t, x), y) == Apply(Apply(t, y), x)
  {
    PlusCommutes(if x.url in t.urls then t.urls[x.url] else 0, x.bytes, y.bytes);
    assert Apply(Apply(t, x), y).urls == Apply(Apply(t, y), x).urls;
  }

  lemma ApplyCommutes(t: Tally, x: Op, y: Op)
    ensures Apply(Apply(t, x), y) == Apply(Apply(t, y), x)
  {
    match (x, y)
    case (AddTotal(a), AddTotal(b)) => PlusCommutes(t.total, a, b);
    case (AddUrl(_, _), AddUrl(_, _)) => UrlsCommute(t, x, y);
    case (IncRef(_), IncRef(_)) => assert Apply(Apply(t, x), y).refs == Apply(Apply(t, y), x).refs;
    case _ =>
  }

  /** Any update can be moved to the end. */
  lemma {:induction false} MoveToEnd(ops: seq<Op>, i: nat)
    requires i < |ops|
    ensures Fold(ops) == Apply(Fold(ops[..i] + ops[i + 1..]), ops[i])
  {
    var n := |ops| - 1;
    var rest := ops[..i] + ops[i + 1..];
    if i == n {
      assert rest == ops[..n];
    } else {
      var p := ops[..n];
      MoveToEnd(p, i);
      assert rest[..n - 1] == p[..i] + p[i + 1..];
      ApplyCommutes(Fold(p[..i] + p[i + 1..]), ops[i], ops[n]);
    }
  }

  lemma WithoutOne(b: seq<Op>, i: nat)
    requires i < |b|
    ensures multiset(b) == multiset(b[..i] + b[i + 1..]) + multiset{b[i]}
  {
    assert b == b[..i] + [b[i]] + b[i + 1..];
  }

  lemma SameWithout(m: multiset<Op>, m': multiset<Op>, x: Op)
    requires m + multiset{x} == m' + multiset{x}
    ensures m == m'
  {
    assert m == (m + multiset{x}) - multiset{x};
  }

  lemma SameWithoutOne(a: seq<Op>, b: seq<Op>, i: nat)
    requires multiset(a) == multiset(b) && a != [] && i < |b| && b[i] == a[|a| - 1]
    ensures multiset(a[..|a| - 1]) == multiset(b[..i] + b[i + 1..])
  {
    var n := |a| - 1;
    WithoutOne(a, n);
    WithoutOne(b, i);
    assert a[..n] + a[n + 1..] == a[..n];
    SameWithout(multiset(a[..n]), multiset(b[..i] + b[i + 1..]), a[n]);
  }

  /** The tally depends on which updates were made, not on their order. */
  lemma {:induction false} FoldOfPermutation(a: seq<Op>, b: seq<Op>)
    requires multiset(a) == multiset(b)
    ensures Fold(a) == Fold(b)
    decreases |a|
  {
    hide Apply;
    if a == [] {
      assert |multiset(b)| == 0;
    } else {
      assert a[|a| - 1] in multiset(b);
      var i: nat :| i < |b| && b[i] == a[|a| - 1];
      SameWithoutOne(a, b, i);
      FoldOfPermutation(a[..|a| - 1], b[..i] + b[i + 1..]);
      MoveToEnd(b, i);
    }
  }

  // --------------------------------------------------- what the tally means

  function TotalSum(ops: seq<Op>): nat {
    if ops == [] then 0
    else TotalSum(ops[..|ops| - 1]) + if ops[|ops| - 1].AddTotal? then ops[|ops| - 1].bytes else 0
  }

  function UrlSum(ops: seq<Op>, url: Text): nat {
    if ops == [] then 0
    else
      var op := ops[|ops| - 1];
      UrlSum(ops[..|ops| - 1], url) + if op.AddUrl? && op.url == url then op.bytes else 0
  }

  function RefCount(ops: seq<Op>, referer: Text): nat {
    if ops == [] then 0
    else RefCount(ops[..|ops| - 1], referer) + if ops[|ops| - 1] == IncRef(referer) then 1 else 0
  }

  predicate Mentions(ops: seq<Op>, url: Text) {
    exists op | op in ops :: op.AddUrl? && op.url == url
  }

  /** The total is the sum of all bytes, modulo the word size. */
  lemma {:induction false} TotalMeans(ops: seq<Op>)
    ensures Fold(ops).total == TotalSum(ops) % SIZE_MODULUS
  {
    if ops != [] {
      var p, op := ops[..|ops| - 1], ops[|ops| - 1];
      TotalMeans(p);
      if op.AddTotal? {
        PlusSum(TotalSum(p), op.bytes);
      }
    }
  }

  /** A URL has an entry exactly when some line counted it; the entry is its byte sum. */
  lemma {:induction false} UrlMeans(ops: seq<Op>, url: Text)
    ensures url in Fold(ops).urls <==> Mentions(ops, url)
    ensures url in Fold(ops).urls ==> Fold(ops).urls[url] == UrlSum(ops, url) % SIZE_MODULUS
    ensures url !in Fold(ops).urls ==> UrlSum(ops, url) == 0
  {
    if ops != [] {
      var p, op := ops[..|ops| - 1], ops[|ops| - 1];
      UrlMeans(p, url);
      MentionsLast(ops, url);
      if op.AddUrl? && op.url == url {
        PlusSum(UrlSum(p, url), op.bytes);
      }
    }
  }

  lemma MentionsLast(ops: seq<Op>, url: Text)
    requires ops != []
    ensures var n := |ops| - 1;
            Mentions(ops, url) <==> Mentions(ops[..n], url) || (ops[n].AddUrl? && ops[n].url == url)
  {
    assert ops == ops[..|ops| - 1] + [ops[|ops| - 1]];
  }

  /** A referer has an entry exactly when some line has it; the entry is the number of lines. */
  lemma {:induction false} RefMeans(ops: seq<Op>, referer: Text)
    ensures referer in Fold(ops).refs <==> RefCount(ops, referer) > 0
    ensures referer in Fold(ops).refs ==> Fold(ops).refs[referer] == RefCount(ops, referer)
  {
    if ops != [] {
      RefMeans(ops[..|ops| - 1], referer);
    }
  }

  // ----------------------------------------------- the lines of the files

  /** The lines of all files that can be opened, one after the other. */
  function AllLines(files: seq<Option<seq<Line>>>): seq<Line> {
    if files == [] then []
    else
      var file := files[|files| - 1];
      AllLines(files[..|files| - 1]) + if file.Some? then file.value else []
  }

  /** The sum of the bytes of the lines. */
  function BytesOf(lines: seq<Line>): nat {
    if lines == [] then 0 else lines[0].bytes + BytesOf(lines[1..])
  }

  /** The sum of the bytes of the lines with a URL. */
  function UrlBytes(lines: seq<Line>, url: Text): nat {
    if lines == [] then 0 else (if lines[0].url == url then lines[0].bytes else 0) + UrlBytes(lines[1..], url)
  }

  /** The number of lines with a referer. */
  function RefLines(lines: seq<Line>, referer: Text): nat {
    if lines == [] then 0 else (if lines[0].referer == referer then 1 else 0) + RefLines(lines[1..], referer)
  }

  /** Some line with bytes has the URL. */
  ghost predicate Named(lines: seq<Line>, url: Text) {
    exists line | line in lines :: line.bytes > 0 && line.url == url
  }

  /** The tally gives the traffic of the lines: in all, by URL and by referer. */
  ghost predicate Reports(t: Tally, lines: seq<Line>) {
    && t.total == BytesOf(lines) % 0x1_0000_0000_0000_0000
    && (forall url ::
          && (url in t.urls <==> Named(lines, url))
          && (url in t.urls ==> t.urls[url] == UrlBytes(lines, url) % 0x1_0000_0000_0000_0000))
    && (forall referer ::
          && (referer in t.refs <==> RefLines(lines, referer) > 0)
          && (referer in t.refs ==> t.refs[referer] == RefLines(lines, referer)))
  }

  lemma {:induction false} SumsConcat(a: seq<Op>, b: seq<Op>, url: Text, referer: Text)
    ensures TotalSum(a + b) == TotalSum(a) + TotalSum(b)
    ensures UrlSum(a + b, url) == UrlSum(a, url) + UrlSum(b, url)
    ensures RefCount(a + b, referer) == RefCount(a, referer) + RefCount(b, referer)
  {
    if b == [] {
      assert a + b == a;
    } else {
      SumsConcat(a, b[..|b| - 1], url, referer);
      assert (a + b)[..|a + b| - 1] == a + b[..|b| - 1];
    }
  }

  lemma Regroup(a: seq<Op>, b: seq<Op>, c: seq<Op>)
    ensures a + (b + c) == (a + b) + c
  {
  }

  lemma FirstLine(line: Line, rest: seq<Line>)
    ensures FileOps([line] + rest) == LineOps(line) + FileOps(rest)
  {
    hide LineOps;
    assert ([line] + rest)[1..] == rest;
  }

  lemma {:induction false} FileOpsConcat(a: seq<Line>, b: seq<Line>)
    ensures FileOps(a + b) == FileOps(a) + FileOps(b)
  {
    hide LineOps;
    if a == [] {
      assert a + b == b;
    } else {
      FileOpsConcat(a[1..], b);
      Regroup(LineOps(a[0]), FileOps(a[1..]), FileOps(b));
      assert a + b == [a[0]] + (a[1..] + b);
      FirstLine(a[0], a[1..] + b);
    }
  }

  lemma {:induction false} AllOpsIs(files: seq<Option<seq<Line>>>)
    ensures AllOps(files) == FileOps(AllLines(files))
  {
    hide LineOps;
    if files != [] {
      var n := |files| - 1;
      var lines := if files[n].Some? then files[n].value else [];
      AllOpsIs(files[..n]);
      FileOpsConcat(AllLines(files[..n]), lines);
      assert OpsOf(files[n]) == FileOps(lines);
    }
  }

  lemma SumsOfOne(op: Op, url: Text, referer: Text)
    ensures TotalSum([op]) == if op.AddTotal? then op.bytes else 0
    ensures UrlSum([op], url) == if op.AddUrl? && op.url == url then op.bytes else 0
    ensures RefCount([op], referer) == if op == IncRef(referer) then 1 else 0
  {
    assert [op][..0] == [];
  }

  lemma SumsOfLine(line: Line, url: Text, referer: Text)
    ensures TotalSum(LineOps(line)) == line.bytes
    ensures UrlSum(LineOps(line), url) == if line.url == url then line.bytes else 0
    ensures RefCount(LineOps(line), referer) == if line.referer == referer then 1 else 0
    ensures Mentions(LineOps(line), url) <==> line.bytes > 0 && line.url == url
  {
    hide TotalSum, UrlSum, RefCount;
    var total, add, inc := AddTotal(line.bytes), AddUrl(line.url, line.bytes), IncRef(line.referer);
    SumsOfOne(total, url, referer);
    SumsOfOne(add, url, referer);
    SumsOfOne(inc, url, referer);
    if line.bytes > 0 {
      assert LineOps(line) == [total] + [add] + [inc];
      SumsConcat([total] + [add], [inc], url, referer);
      SumsConcat([total], [add], url, referer);
      assert add in LineOps(line);
    } else {
      assert LineOps(line) == [inc];
    }
  }

  /** What the updates of the lines add up to is what the lines add up to. */
  lemma {:induction false} SumsOfLines(lines: seq<Line>, url: Text, referer: Text)
    ensures TotalSum(FileOps(lines)) == BytesOf(lines)
    ensures UrlSum(FileOps(lines), url) == UrlBytes(lines, url)
    ensures RefCount(FileOps(lines), referer) == RefLines(lines, referer)
    ensures Mentions(FileOps(lines), url) <==> Named(lines, url)
  {
    hide LineOps;
    if lines != [] {
      SumsOfLine(lines[0], url, referer);
      SumsOfLines(lines[1..], url, referer);
      SumsConcat(LineOps(lines[0]), FileOps(lines[1..]), url, referer);
      assert lines == [lines[0]] + lines[1..];
    }
  }

  /** The tally of a sequential pass reports the lines of the files. */
  lemma SequentialReports(files: seq<Option<seq<Line>>>)
    ensures Reports(Fold(AllOps(files)), AllLines(files))
  {
    var ops, lines := AllOps(files), AllLines(files);
    AllOpsIs(files);
    TotalMeans(ops);
    SumsOfLines(lines, [], []);
    forall url
      ensures url in Fold(ops).urls <==> Named(lines, url)
      ensures url in Fold(ops).urls ==> Fold(ops).urls[url] == UrlBytes(lines, url) % SIZE_MODULUS
    {
      UrlMeans(ops, url);
      SumsOfLines(lines, url, []);
    }
    forall referer
      ensures referer in Fold(ops).refs <==> RefLines(lines, referer) > 0
      ensures referer in Fold(ops).refs ==> Fold(ops).refs[referer] == RefLines(lines, referer)
    {
      RefMeans(ops, referer);
      SumsOfLines(lines, [], referer);
    }
  }

  // --------------------------------------- the total against the URL map

  /** The sum of the values of a map. */
  ghost function MapSum(m: map<Text, size_t>): nat
    decreases |m.Keys|
  {
    if m == map[] then 0
    else
      var key :| key in m;
      assert (m - {key}).Keys == m.Keys - {key};
      m[key] + MapSum(m - {key})
  }

  lemma {:induction false} MapSumWithout(m: map<Text, size_t>, key: Text)
    requires key in m
    ensures MapSum(m) == m[key] + MapSum(m - {key})
    decreases |m.Keys|
  {
    var k :| k in m && MapSum(m) == m[k] + MapSum(m - {k});
    if k != key {
      assert (m - {k}).Keys == m.Keys - {k};
      MapSumWithout(m - {k}, key);
      assert (m - {key}).Keys == m.Keys - {key};
      MapSumWithout(m - {key}, k);
      assert m - {k} - {key} == m - {key} - {k};
    }
  }

  /** Counting bytes for a URL adds them to the sum of the map, modulo the word size. */
  lemma MapSumAfterUrl(t: Tally, url: Text, bytes: size_t)
    ensures MapSum(Apply(t, AddUrl(url, bytes)).urls) % SIZE_MODULUS == (MapSum(t.urls) + bytes) % SIZE_MODULUS
  {
    hide MapSum;
    var m, m' := t.urls, Apply(t, AddUrl(url, bytes)).urls;
    MapSumWithout(m', url);
    assert m' - {url} == m - {url};
    if url in m {
      MapSumWithout(m, url);
      PlusSum(m[url] + bytes, MapSum(m - {url}));
    } else {
      assert m - {url} == m;
    }
  }
}
