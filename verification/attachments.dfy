/**
 * One page's attachment loop (main.go:79-103): every `.attachment__link`
 * with an `href` is downloaded, a download is classified by the last three
 * characters of its URL, and a voice note or a picture takes the next number
 * of its kind and is written to `<root>/files/<name>/<folder>/<n>.<ext>`.
 *
 * The loop is specified here as the sequence of I/O events it performs; the
 * imperative loop in module Extractor is proved to perform exactly these.
 */
module Attachments {
  import opened Wrappers
  import opened Text

  type Bytes = seq<bv8>

  /** The two kinds of attachment the extractor keeps. */
  datatype Kind = Voice | Picture

  /** The URL suffix that selects a kind, also the output file extension. */
  function Ext(k: Kind): string {
    match k
    case Voice => "ogg"
    case Picture => "jpg"
  }

  /** The output sub-directory of a kind. */
  function Folder(k: Kind): string {
    match k
    case Voice => "voices"
    case Picture => "pictures"
  }

  /** The `switch` of line 88: the kind named by the last three characters of
      the URL, if any. The source slices `url[len(url)-3:]`, which panics on
      a shorter URL, so it needs at least three characters. */
  function Classify(url: string): Option<Kind>
    requires |url| >= 3
  {
    var ext := url[|url| - 3..];
    if ext == "ogg" then Some(Voice)
    else if ext == "jpg" then Some(Picture)
    else None
  }

  /** A URL is classified as kind `k` exactly when it ends in `k`'s three
      letters; nothing before them matters. */
  lemma ClassifyIff(url: string, k: Kind)
    requires |url| >= 3
    ensures Classify(url) == Some(k) <==> url[|url| - 3..] == Ext(k)
    ensures forall stem: string :: Classify(stem + url) == Classify(url)
  {
    forall stem: string ensures Classify(stem + url) == Classify(url) {
      assert (stem + url)[|stem + url| - 3..] == url[|url| - 3..];
    }
  }

  /** Classification is by suffix, not by file extension: no dot is needed,
      a query string counts, case matters, and `.jpeg` or `.mp4` is skipped. */
  lemma ClassifyExamples()
    ensures Classify("http://x/a.ogg") == Some(Voice)
    ensures Classify("http://x/b.jpg") == Some(Picture)
    ensures Classify("http://x/get?type=ogg") == Some(Voice)
    ensures Classify("http://x/a.OGG") == None
    ensures Classify("http://x/b.jpeg") == None
    ensures Classify("http://x/c.mp4") == None
  {
  }

  /** One `.attachment__link` element, as the HTML parser returns it (`href`
      absent or present), together with what happened when the loop used it:
      the outcome of `downloadFile` (the body, or none on a transport error
      or a status other than 200) and whether `createFile` succeeded. */
  datatype Anchor = Anchor(href: Option<string>, download: Option<Bytes>, saved: bool)

  /** The link has an `href` and its download succeeded. */
  predicate Fetched(a: Anchor) {
    a.href.Some? && a.download.Some?
  }

  /** The slice of line 88 is defined: a fetched URL has three characters. */
  predicate Sliceable(a: Anchor) {
    Fetched(a) ==> |a.href.value| >= 3
  }

  predicate AllSliceable(anchors: seq<Anchor>) {
    forall i :: 0 <= i < |anchors| ==> Sliceable(anchors[i])
  }

  /** The kind a link is counted under: none unless it was fetched. */
  function KindOf(a: Anchor): (r: Option<Kind>)
    requires Sliceable(a)
    ensures r.Some? ==> Fetched(a)
  {
    if Fetched(a) then Classify(a.href.value) else None
  }

  /** The rule of lines 80-97: a link is counted under kind `k` exactly when
      it has an `href`, its download succeeded, and its URL ends in `k`'s
      three letters. */
  lemma KindOfSuffix(a: Anchor, k: Kind)
    requires Sliceable(a)
    ensures KindOf(a) == Some(k) <==> Fetched(a) && a.href.value[|a.href.value| - 3..] == Ext(k)
  {
  }

  /** The two per-dialog counters, `oggCount` and `jpgCount`. */
  datatype Counts = Counts(ogg: nat, jpg: nat) {
    function Get(k: Kind): nat {
      match k
      case Voice => ogg
      case Picture => jpg
    }

    /** `atomic.AddInt64` on the counter of kind `k`. */
    function Bump(k: Kind): (r: Counts)
      ensures r.Get(k) == Get(k) + 1
      ensures forall j :: j != k ==> r.Get(j) == Get(j)
    {
      match k
      case Voice => Counts(ogg + 1, jpg)
      case Picture => Counts(ogg, jpg + 1)
    }
  }

  /** An output file: dialog display name, kind and number. */
  datatype Target = Target(name: string, kind: Kind, index: nat)

  /** The directory of a dialog's files, `<root>/files/<name>`. */
  function NameDir(root: string, name: string): string {
    root + "/files/" + name
  }

  /** The directory created by `os.MkdirAll` on lines 67 and 73. */
  function DirPath(root: string, name: string, k: Kind): string {
    NameDir(root, name) + "/" + Folder(k)
  }

  /** The file name formatted on lines 91 and 94: the number, a dot and the
      extension. */
  function FileName(n: nat, k: Kind): string {
    Decimal(n) + "." + Ext(k)
  }

  /** The path formatted on lines 91 and 94. */
  function PathOf(root: string, t: Target): string {
    DirPath(root, t.name, t.kind) + "/" + FileName(t.index, t.kind)
  }

  /** Distinct targets never share a path string, whatever the display names
      contain (even a `/`): the path determines the name, the kind and the
      number. */
  lemma PathOfInjective(root: string, t1: Target, t2: Target)
    ensures PathOf(root, t1) == PathOf(root, t2) <==> t1 == t2
  {
    if PathOf(root, t1) == PathOf(root, t2) {
      NoSlashInFileName(t1.index, t1.kind);
      NoSlashInFileName(t2.index, t2.kind);
      SplitAtLastSlash(DirPath(root, t1.name, t1.kind), FileName(t1.index, t1.kind));
      SplitAtLastSlash(DirPath(root, t2.name, t2.kind), FileName(t2.index, t2.kind));
      FileNameInjective(t1.index, t1.kind, t2.index, t2.kind);
      DirPathInjective(root, t1.name, t2.name, t1.kind);
    }
  }

  lemma FileNameInjective(n1: nat, k1: Kind, n2: nat, k2: Kind)
    requires FileName(n1, k1) == FileName(n2, k2)
    ensures n1 == n2 && k1 == k2
  {
    var seg1, seg2 := FileName(n1, k1), FileName(n2, k2);
    assert Ext(k1) == seg1[|seg1| - 3..] == seg2[|seg2| - 3..] == Ext(k2);
    assert Decimal(n1) == seg1[..|seg1| - 4] == seg2[..|seg2| - 4] == Decimal(n2);
    DecimalInjective(n1, n2);
  }

  lemma DirPathInjective(root: string, name1: string, name2: string, k: Kind)
    requires DirPath(root, name1, k) == DirPath(root, name2, k)
    ensures name1 == name2
  {
    var prefix1, prefix2 := NameDir(root, name1), NameDir(root, name2);
    assert '/' !in Folder(k);
    SplitAtLastSlash(prefix1, Folder(k));
    SplitAtLastSlash(prefix2, Folder(k));
    assert name1 == prefix1[|root + "/files/"|..] == prefix2[|root + "/files/"|..] == name2;
  }

  /** The file name part of a path has no `/`. */
  lemma NoSlashInFileName(n: nat, k: Kind)
    ensures '/' !in FileName(n, k)
  {
    var d := Decimal(n);
    forall i | 0 <= i < |FileName(n, k)|
      ensures FileName(n, k)[i] != '/'
    {
      if i < |d| {
        assert FileName(n, k)[i] == d[i];
      }
    }
  }

  /** The layout of the output tree. */
  lemma PathExamples(root: string, name: string)
    ensures PathOf(root, Target(name, Voice, 1)) == root + "/files/" + name + "/voices/1.ogg"
    ensures PathOf(root, Target(name, Picture, 12)) == root + "/files/" + name + "/pictures/12.jpg"
  {
    var base := NameDir(root, name);
    assert Decimal(1) == "1";
    assert Decimal(12) == "12" by {
      assert Decimal(12) == Decimal(1) + [Digit(2)];
    }
    assert FileName(1, Voice) == "1.ogg";
    assert FileName(12, Picture) == "12.jpg";
    assert base + "/" + "voices" + "/" + "1.ogg" == base + "/voices/1.ogg";
    assert base + "/" + "pictures" + "/" + "12.jpg" == base + "/pictures/12.jpg";
  }

  /** An I/O step of the extractor, in the order it happens. */
  datatype Event =
    | MadeDir(name: string, kind: Kind)                // os.MkdirAll of DirPath
    | Fetch(url: string)                               // downloadFile
    | Wrote(target: Target, data: Bytes, saved: bool)  // createFile, and whether it succeeded

  /** The counters after link `a`. */
  function Next(c: Counts, a: Anchor): Counts
    requires Sliceable(a)
  {
    match KindOf(a)
    case None => c
    case Some(k) => c.Bump(k)
  }

  /** The events of one iteration of the `Each` callback with counters `c`. */
  function Step(name: string, a: Anchor, c: Counts): seq<Event>
    requires Sliceable(a)
  {
    (if a.href.Some? then [Fetch(a.href.value)] else [])
    + match KindOf(a)
      case None => []
      case Some(k) => [Wrote(Target(name, k, c.Get(k) + 1), a.download.value, a.saved)]
  }

  /** The events of the whole attachment loop of a page named `name`. */
  function Emit(name: string, anchors: seq<Anchor>, c: Counts): seq<Event>
    requires AllSliceable(anchors)
    decreases |anchors|
  {
    if anchors == [] then []
    else Step(name, anchors[0], c) + Emit(name, anchors[1..], Next(c, anchors[0]))
  }

  /** Reference definition: the fetched links of kind `k`, in document order. */
  function OfKind(anchors: seq<Anchor>, k: Kind): (r: seq<Anchor>)
    requires AllSliceable(anchors)
    ensures |r| <= |anchors|
    ensures forall i :: 0 <= i < |r| ==> Fetched(r[i]) && Sliceable(r[i]) && KindOf(r[i]) == Some(k)
    decreases |anchors|
  {
    if anchors == [] then []
    else (if KindOf(anchors[0]) == Some(k) then [anchors[0]] else []) + OfKind(anchors[1..], k)
  }

  /** Reference definition: counters `c` advanced by the fetched links of each kind. */
  function Advance(c: Counts, anchors: seq<Anchor>): Counts
    requires AllSliceable(anchors)
  {
    Counts(c.ogg + |OfKind(anchors, Voice)|, c.jpg + |OfKind(anchors, Picture)|)
  }

  /** Reference definition: the URLs requested, one per link with an `href`. */
  function Hrefs(anchors: seq<Anchor>): seq<string>
    decreases |anchors|
  {
    if anchors == [] then []
    else (if anchors[0].href.Some? then [anchors[0].href.value] else []) + Hrefs(anchors[1..])
  }

  /** The write events of kind `k` in a log, in order. */
  function Written(log: seq<Event>, k: Kind): seq<Event>
    decreases |log|
  {
    if log == [] then []
    else (if log[0].Wrote? && log[0].target.kind == k then [log[0]] else []) + Written(log[1..], k)
  }

  /** The URLs of the fetch events in a log, in order. */
  function Requests(log: seq<Event>): seq<string>
    decreases |log|
  {
    if log == [] then []
    else (if log[0].Fetch? then [log[0].url] else []) + Requests(log[1..])
  }

  lemma {:induction false} WrittenConcat(a: seq<Event>, b: seq<Event>, k: Kind)
    ensures Written(a + b, k) == Written(a, k) + Written(b, k)
    decreases |a|
  {
    if a == [] {
      assert a + b == b;
    } else {
      assert (a + b)[1..] == a[1..] + b;
      WrittenConcat(a[1..], b, k);
    }
  }

  lemma {:induction false} RequestsConcat(a: seq<Event>, b: seq<Event>)
    ensures Requests(a + b) == Requests(a) + Requests(b)
    decreases |a|
  {
    if a == [] {
      assert a + b == b;
    } else {
      assert (a + b)[1..] == a[1..] + b;
      RequestsConcat(a[1..], b);
    }
  }

  lemma {:induction false} OfKindConcat(a: seq<Anchor>, b: seq<Anchor>, k: Kind)
    requires AllSliceable(a) && AllSliceable(b)
    ensures AllSliceable(a + b)
    ensures OfKind(a + b, k) == OfKind(a, k) + OfKind(b, k)
    decreases |a|
  {
    SliceableConcat(a, b);
    if a == [] {
      assert a + b == b;
    } else {
      assert AllSliceable(a[1..]);
      assert (a + b)[1..] == a[1..] + b;
      OfKindConcat(a[1..], b, k);
    }
  }

  lemma SliceableConcat(a: seq<Anchor>, b: seq<Anchor>)
    requires AllSliceable(a) && AllSliceable(b)
    ensures AllSliceable(a + b)
  {
    assert forall i :: 0 <= i < |a + b| ==> (a + b)[i] == if i < |a| then a[i] else b[i - |a|];
  }

  /** The writes of one iteration: one for a fetched link of kind `k`,
      numbered one past the counter, and none otherwise. */
  lemma StepWritten(name: string, a: Anchor, c: Counts, k: Kind)
    requires Sliceable(a)
    ensures Written(Step(name, a, c), k)
         == if KindOf(a) == Some(k) then [Wrote(Target(name, k, c.Get(k) + 1), a.download.value, a.saved)] else []
  {
    var fetch: seq<Event> := if a.href.Some? then [Fetch(a.href.value)] else [];
    var write: seq<Event> := match KindOf(a)
      case None => []
      case Some(j) => [Wrote(Target(name, j, c.Get(j) + 1), a.download.value, a.saved)];
    WrittenConcat(fetch, write, k);
    if a.href.Some? {
      assert fetch[1..] == [];
    }
    if KindOf(a).Some? {
      assert write[1..] == [];
    }
  }

  /** Reference definition: fetched links written in order, numbered from
      `first` up, each with its own bytes and write outcome. */
  function Numbered(name: string, k: Kind, first: nat, f: seq<Anchor>): (r: seq<Event>)
    requires forall i :: 0 <= i < |f| ==> f[i].download.Some?
    ensures |r| == |f|
    decreases |f|
  {
    if f == [] then []
    else [Wrote(Target(name, k, first), f[0].download.value, f[0].saved)] + Numbered(name, k, first + 1, f[1..])
  }

  /** Numbering within a page: the writes of kind `k` are the fetched links of
      kind `k`, in document order, numbered from one past the counter. Links
      without an `href`, failed downloads and unsupported suffixes take no
      number. */
  lemma {:induction false} EmitNumbering(name: string, anchors: seq<Anchor>, c: Counts, k: Kind)
    requires AllSliceable(anchors)
    ensures Written(Emit(name, anchors, c), k) == Numbered(name, k, c.Get(k) + 1, OfKind(anchors, k))
    decreases |anchors|
  {
    if anchors != [] {
      assert AllSliceable(anchors[1..]);
      EmitNumbering(name, anchors[1..], Next(c, anchors[0]), k);
      NumberingStep(name, anchors, c, k);
    }
  }

  /** The inductive step of `EmitNumbering`: the first link either takes the
      next number of its kind or none. */
  lemma NumberingStep(name: string, anchors: seq<Anchor>, c: Counts, k: Kind)
    requires AllSliceable(anchors) && anchors != [] && AllSliceable(anchors[1..])
    requires Written(Emit(name, anchors[1..], Next(c, anchors[0])), k)
          == Numbered(name, k, Next(c, anchors[0]).Get(k) + 1, OfKind(anchors[1..], k))
    ensures Written(Emit(name, anchors, c), k) == Numbered(name, k, c.Get(k) + 1, OfKind(anchors, k))
  {
    var a, fr := anchors[0], OfKind(anchors[1..], k);
    EmitWritten(name, anchors, c, k);
    NextGet(c, a, k);
    if KindOf(a) == Some(k) {
      assert OfKind(anchors, k) == [a] + fr;
      NumberedCons(name, k, c.Get(k) + 1, a, fr);
    } else {
      assert OfKind(anchors, k) == fr;
    }
  }

  /** The writes of a page are those of its first iteration followed by
      those of the rest, counted on from `Next`. */
  lemma EmitWritten(name: string, anchors: seq<Anchor>, c: Counts, k: Kind)
    requires AllSliceable(anchors) && anchors != []
    ensures Written(Emit(name, anchors, c), k)
         == (if KindOf(anchors[0]) == Some(k)
             then [Wrote(Target(name, k, c.Get(k) + 1), anchors[0].download.value, anchors[0].saved)] else [])
            + Written(Emit(name, anchors[1..], Next(c, anchors[0])), k)
  {
    var a, rest := anchors[0], anchors[1..];
    assert Emit(name, anchors, c) == Step(name, a, c) + Emit(name, rest, Next(c, a));
    WrittenConcat(Step(name, a, c), Emit(name, rest, Next(c, a)), k);
    StepWritten(name, a, c, k);
  }

  lemma NextGet(c: Counts, a: Anchor, k: Kind)
    requires Sliceable(a)
    ensures Next(c, a).Get(k) == c.Get(k) + (if KindOf(a) == Some(k) then 1 else 0)
  {
  }

  lemma NumberedCons(name: string, k: Kind, first: nat, a: Anchor, f: seq<Anchor>)
    requires a.download.Some? && forall i :: 0 <= i < |f| ==> f[i].download.Some?
    ensures forall i :: 0 <= i < |[a] + f| ==> ([a] + f)[i].download.Some?
    ensures Numbered(name, k, first, [a] + f)
         == [Wrote(Target(name, k, first), a.download.value, a.saved)] + Numbered(name, k, first + 1, f)
  {
    assert ([a] + f)[1..] == f;
  }

  /** One iteration fetches its `href`, if it has one, and nothing else. */
  lemma StepRequests(name: string, a: Anchor, c: Counts)
    requires Sliceable(a)
    ensures Requests(Step(name, a, c)) == if a.href.Some? then [a.href.value] else []
  {
    var fetch: seq<Event> := if a.href.Some? then [Fetch(a.href.value)] else [];
    var write: seq<Event> := match KindOf(a)
      case None => []
      case Some(j) => [Wrote(Target(name, j, c.Get(j) + 1), a.download.value, a.saved)];
    assert Step(name, a, c) == fetch + write;
    RequestsConcat(fetch, write);
    if a.href.Some? {
      assert fetch[1..] == [];
    }
    if KindOf(a).Some? {
      assert write[1..] == [];
    }
  }

  /** Every link with an `href` is downloaded, in order, whatever its suffix:
      the source classifies only after the download. */
  lemma {:induction false} EmitRequests(name: string, anchors: seq<Anchor>, c: Counts)
    requires AllSliceable(anchors)
    ensures Requests(Emit(name, anchors, c)) == Hrefs(anchors)
    decreases |anchors|
  {
    if anchors != [] {
      var a := anchors[0];
      StepRequests(name, a, c);
      RequestsConcat(Step(name, a, c), Emit(name, anchors[1..], Next(c, a)));
      EmitRequests(name, anchors[1..], Next(c, a));
    }
  }

  /** The counters move by one link at a time: `Advance` over the rest of the
      links from `Next` is `Advance` over all of them. */
  lemma AdvanceStep(c: Counts, anchors: seq<Anchor>)
    requires AllSliceable(anchors) && anchors != []
    ensures AllSliceable(anchors[1..])
    ensures Advance(c, anchors) == Advance(Next(c, anchors[0]), anchors[1..])
  {
    assert AllSliceable(anchors[1..]);
  }

  /** One more iteration of the loop: if the events so far followed by those
      of the remaining links make up `total`, so do the events after the
      first remaining link followed by those of the rest. */
  lemma EmitStep(name: string, rest: seq<Anchor>, c: Counts, done: seq<Event>, total: seq<Event>)
    requires AllSliceable(rest) && rest != []
    requires total == done + Emit(name, rest, c)
    ensures AllSliceable(rest[1..])
    ensures total == (done + Step(name, rest[0], c)) + Emit(name, rest[1..], Next(c, rest[0]))
  {
    assert AllSliceable(rest[1..]);
    assert Emit(name, rest, c) == Step(name, rest[0], c) + Emit(name, rest[1..], Next(c, rest[0]));
  }

  /** A skipped link (no `href`, failed download or unsupported suffix)
      anywhere in a page changes neither the writes nor the counters. */
  lemma SkippedLinkInvisible(name: string, before: seq<Anchor>, x: Anchor, after: seq<Anchor>, c: Counts, k: Kind)
    requires AllSliceable(before) && Sliceable(x) && AllSliceable(after)
    requires KindOf(x) == None
    ensures AllSliceable(before + [x] + after) && AllSliceable(before + after)
    ensures Written(Emit(name, before + [x] + after, c), k) == Written(Emit(name, before + after, c), k)
    ensures Advance(c, before + [x] + after) == Advance(c, before + after)
  {
    SkipKeepsOfKind(before, x, after, k);
    SkipKeepsOfKind(before, x, after, Voice);
    SkipKeepsOfKind(before, x, after, Picture);
    EmitNumbering(name, before + [x] + after, c, k);
    EmitNumbering(name, before + after, c, k);
  }

  lemma SkipKeepsOfKind(before: seq<Anchor>, x: Anchor, after: seq<Anchor>, k: Kind)
    requires AllSliceable(before) && Sliceable(x) && AllSliceable(after)
    requires KindOf(x) == None
    ensures AllSliceable(before + [x] + after) && AllSliceable(before + after)
    ensures OfKind(before + [x] + after, k) == OfKind(before + after, k)
  {
    SkipHead(x, after, k);
    OfKindConcat(before, [x] + after, k);
    OfKindConcat(before, after, k);
    assert before + [x] + after == before + ([x] + after);
  }

  lemma SkipHead(x: Anchor, after: seq<Anchor>, k: Kind)
    requires Sliceable(x) && AllSliceable(after)
    requires KindOf(x) == None
    ensures AllSliceable([x] + after)
    ensures OfKind([x] + after, k) == OfKind(after, k)
  {
    var xs := [x] + after;
    assert xs[0] == x && xs[1..] == after;
    assert AllSliceable(xs);
  }

  /** Within each kind, numbers strictly increase along the log. */
  predicate Increasing(log: seq<Event>) {
    forall i, j ::
      0 <= i < j < |log| && log[i].Wrote? && log[j].Wrote? && log[i].target.kind == log[j].target.kind
      ==> log[i].target.index < log[j].target.index
  }

  /** Every number written lies above the counter `lo` and at most at `hi`. */
  predicate Within(log: seq<Event>, lo: Counts, hi: Counts) {
    forall i :: 0 <= i < |log| && log[i].Wrote? ==>
      lo.Get(log[i].target.kind) < log[i].target.index <= hi.Get(log[i].target.kind)
  }

  predicate Below(lo: Counts, hi: Counts) {
    lo.ogg <= hi.ogg && lo.jpg <= hi.jpg
  }

  lemma ConcatIncreasing(a: seq<Event>, b: seq<Event>, lo: Counts, mid: Counts, hi: Counts)
    requires Increasing(a) && Within(a, lo, mid)
    requires Increasing(b) && Within(b, mid, hi)
    requires Below(lo, mid) && Below(mid, hi)
    ensures Increasing(a + b) && Within(a + b, lo, hi)
  {
    var ab := a + b;
    forall i | 0 <= i < |ab| && ab[i].Wrote?
      ensures lo.Get(ab[i].target.kind) < ab[i].target.index <= hi.Get(ab[i].target.kind)
    {
      if i >= |a| {
        assert ab[i] == b[i - |a|];
      }
    }
    forall i, j | 0 <= i < j < |ab| && ab[i].Wrote? && ab[j].Wrote? && ab[i].target.kind == ab[j].target.kind
      ensures ab[i].target.index < ab[j].target.index
    {
      if j < |a| {
        assert ab[i] == a[i] && ab[j] == a[j];
      } else if i >= |a| {
        assert ab[i] == b[i - |a|] && ab[j] == b[j - |a|];
      } else {
        assert ab[i] == a[i] && ab[j] == b[j - |a|];
      }
    }
  }

  /** One iteration writes at most once, as its last event, numbered one
      past the counter of its kind. */
  lemma StepShape(name: string, a: Anchor, c: Counts)
    requires Sliceable(a)
    ensures Increasing(Step(name, a, c)) && Within(Step(name, a, c), c, Next(c, a))
    ensures forall i :: 0 <= i < |Step(name, a, c)| && Step(name, a, c)[i].Wrote? ==>
      Step(name, a, c)[i].target.name == name
  {
    var s := Step(name, a, c);
    var fetch: seq<Event> := if a.href.Some? then [Fetch(a.href.value)] else [];
    assert forall i :: 0 <= i < |fetch| ==> !fetch[i].Wrote?;
    match KindOf(a)
    case None =>
      assert s == fetch;
    case Some(k) =>
      var w := Wrote(Target(name, k, c.Get(k) + 1), a.download.value, a.saved);
      assert s == fetch + [w];
      assert forall i :: 0 <= i < |s| && s[i].Wrote? ==> i == |s| - 1 && s[i] == w;
  }

  /** The numbers a page writes strictly increase within each kind, lie between
      the counters before and after it, and every write uses the page's name. */
  lemma {:induction false} EmitIncreasing(name: string, anchors: seq<Anchor>, c: Counts)
    requires AllSliceable(anchors)
    ensures Increasing(Emit(name, anchors, c)) && Within(Emit(name, anchors, c), c, Advance(c, anchors))
    ensures forall i :: 0 <= i < |Emit(name, anchors, c)| && Emit(name, anchors, c)[i].Wrote? ==>
      Emit(name, anchors, c)[i].target.name == name
    decreases |anchors|
  {
    if anchors != [] {
      var a := anchors[0];
      var n := Next(c, a);
      AdvanceStep(c, anchors);
      EmitIncreasing(name, anchors[1..], n);
      StepShape(name, a, c);
      ConcatIncreasing(Step(name, a, c), Emit(name, anchors[1..], n), c, n, Advance(c, anchors));
      var s: seq<Event>, e: seq<Event> := Step(name, a, c), Emit(name, anchors[1..], n);
      var se := s + e;
      forall i | 0 <= i < |se| && se[i].Wrote?
        ensures se[i].target.name == name
      {
        if i >= |s| {
          assert se[i] == e[i - |s|];
        }
      }
    } else {
      assert Emit(name, anchors, c) == [];
    }
  }

  /** Download and write failures leave different traces: a failed download
      takes no number, so the next voice note is `1.ogg`; a failed write has
      already taken its number, so the next one is `2.ogg`. */
  lemma FailureNumberingExamples(name: string, bytes: Bytes)
    ensures var lost := Anchor(Some("http://x/a.ogg"), None, true);
            var kept := Anchor(Some("http://x/b.ogg"), Some(bytes), true);
            Written(Emit(name, [lost, kept], Counts(0, 0)), Voice)
              == [Wrote(Target(name, Voice, 1), bytes, true)]
    ensures var unsaved := Anchor(Some("http://x/a.ogg"), Some(bytes), false);
            var kept := Anchor(Some("http://x/b.ogg"), Some(bytes), true);
            Written(Emit(name, [unsaved, kept], Counts(0, 0)), Voice)
              == [Wrote(Target(name, Voice, 1), bytes, false), Wrote(Target(name, Voice, 2), bytes, true)]
  {
    var kept := Anchor(Some("http://x/b.ogg"), Some(bytes), true);
    var lost := Anchor(Some("http://x/a.ogg"), None, true);
    var unsaved := Anchor(Some("http://x/a.ogg"), Some(bytes), false);
    assert Classify("http://x/a.ogg") == Some(Voice);
    assert Classify("http://x/b.ogg") == Some(Voice);
    assert OfKind([kept], Voice) == [kept];
    assert [lost, kept][1..] == [kept] && [unsaved, kept][1..] == [kept];
    assert OfKind([lost, kept], Voice) == [kept];
    assert OfKind([unsaved, kept], Voice) == [unsaved, kept];
    EmitNumbering(name, [lost, kept], Counts(0, 0), Voice);
    EmitNumbering(name, [unsaved, kept], Counts(0, 0), Voice);
  }

}
