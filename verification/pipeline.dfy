/**
 * What the extractor does, as functions of the walk and of what the disk, the
 * HTML parser and the network return: one page (`readDialogFile`, main.go:56-105),
 * one dialog (`readDialog`, main.go:40-54) and the walk of the export root
 * (`main`, main.go:25-36). Each result is the I/O event log, the counters
 * and the error returned.
 */
module Pipeline {
  import opened Wrappers
  import opened DialogFilter
  import opened Attachments

  /** The errors `readDialogFile` returns: `os.ReadFile`, the HTML parser, or
      `os.MkdirAll` of the voices or the pictures directory failed. */
  datatype Failure = ReadFailed | ParseFailed | MkdirFailed(kind: Kind)

  /** A page file as the disk and the HTML parser deliver it: unreadable, not
      a document, or its display name (the text of the first
      `div.message__header > a`, empty when there is none) and its
      `.attachment__link` elements in document order. */
  datatype Source = Unreadable | Malformed | Parsed(name: string, anchors: seq<Anchor>)

  /** A page together with the outcome of its two `os.MkdirAll` calls. */
  datatype Page = Page(source: Source, voicesDirMade: bool, picturesDirMade: bool)

  /** An entry of a dialog directory's walk, in walk order. */
  datatype Entry = Entry(name: string, page: Page)

  /** An entry of the export root's walk: its path, base name, whether it is
      a directory, and the walk of the entries beneath it. */
  datatype WalkEntry = WalkEntry(path: string, name: string, isDir: bool, entries: seq<Entry>)

  /** Events logged, counters reached, error returned. */
  datatype Outcome = Outcome(log: seq<Event>, counts: Counts, err: Option<Failure>)

  /** Events logged, directories handed to `readDialog`, error returned. */
  datatype WalkOutcome = WalkOutcome(log: seq<Event>, dialogs: seq<string>, err: Option<Failure>)

  predicate PageOk(p: Page) {
    p.source.Parsed? ==> AllSliceable(p.source.anchors)
  }

  predicate EntriesOk(es: seq<Entry>) {
    forall i :: 0 <= i < |es| ==> PageOk(es[i].page)
  }

  predicate WalkOk(ws: seq<WalkEntry>) {
    forall i :: 0 <= i < |ws| ==> (ws[i].isDir ==> |ws[i].name| > 0) && EntriesOk(ws[i].entries)
  }

  /** Reference definition: the error of a page depends only on reading,
      parsing and the two directory creations, never on its links. */
  function PageError(p: Page): Option<Failure> {
    match p.source
    case Unreadable => Some(ReadFailed)
    case Malformed => Some(ParseFailed)
    case Parsed(_, _) =>
      if !p.voicesDirMade then Some(MkdirFailed(Voice))
      else if !p.picturesDirMade then Some(MkdirFailed(Picture))
      else None
  }

  /** `readDialogFile` on one page with counters `c`. */
  function PageRun(p: Page, c: Counts): (o: Outcome)
    requires PageOk(p)
    ensures o.err == PageError(p)
    ensures o.err.Some? ==> o.counts == c && forall i :: 0 <= i < |o.log| ==> o.log[i].MadeDir?
  {
    match p.source
    case Unreadable => Outcome([], c, Some(ReadFailed))
    case Malformed => Outcome([], c, Some(ParseFailed))
    case Parsed(name, anchors) =>
      if !p.voicesDirMade then Outcome([], c, Some(MkdirFailed(Voice)))
      else if !p.picturesDirMade then Outcome([MadeDir(name, Voice)], c, Some(MkdirFailed(Picture)))
      else Outcome([MadeDir(name, Voice), MadeDir(name, Picture)] + Emit(name, anchors, c), Advance(c, anchors), None)
  }

  /** `readDialog` of directory `dirName` over the entries beneath it, with
      the counters at `c`: pages are read in walk order, all sharing the same
      counters, until one fails. */
  function DialogRun(dirName: string, es: seq<Entry>, c: Counts): Outcome
    requires EntriesOk(es)
    decreases |es|
  {
    if es == [] then Outcome([], c, None)
    else if !IsPage(es[0].name, dirName) then DialogRun(dirName, es[1..], c)
    else
      var p := PageRun(es[0].page, c);
      if p.err.Some? then p
      else
        var r := DialogRun(dirName, es[1..], p.counts);
        Outcome(p.log + r.log, r.counts, r.err)
  }

  /** Reference definition: the links of the pages of a dialog that are read
      in full, in page order and then document order; a failing page ends it. */
  function DialogAnchors(dirName: string, es: seq<Entry>): (r: seq<Anchor>)
    requires EntriesOk(es)
    ensures AllSliceable(r)
    decreases |es|
  {
    if es == [] then []
    else if !IsPage(es[0].name, dirName) then DialogAnchors(dirName, es[1..])
    else if PageError(es[0].page).Some? then []
    else
      var a := es[0].page.source.anchors;
      var rest := DialogAnchors(dirName, es[1..]);
      OfKindConcat(a, rest, Voice);
      a + rest
  }

  /** The names of the entries the export walk hands to `readDialog` when no
      dialog fails. */
  function Eligible(root: string, ws: seq<WalkEntry>): seq<string>
    requires WalkOk(ws)
    decreases |ws|
  {
    if ws == [] then []
    else (if Dispatch(root, ws[0].path, ws[0].name, ws[0].isDir) then [ws[0].name] else [])
         + Eligible(root, ws[1..])
  }

  /** The walk callback of `main` over the export root `root`: every entry the
      filter accepts is read as a dialog with fresh counters; the first
      failing dialog ends the walk. */
  function WalkRun(root: string, ws: seq<WalkEntry>): WalkOutcome
    requires WalkOk(ws)
    decreases |ws|
  {
    if ws == [] then WalkOutcome([], [], None)
    else
      var w := ws[0];
      if !Dispatch(root, w.path, w.name, w.isDir) then WalkRun(root, ws[1..])
      else
        var d := DialogRun(w.name, w.entries, Counts(0, 0));
        if d.err.Some? then WalkOutcome(d.log, [w.name], d.err)
        else
          var r := WalkRun(root, ws[1..]);
          WalkOutcome(d.log + r.log, [w.name] + r.dialogs, r.err)
  }

  /** The walk callback of `main` as written: line 26 compares an entry's base
      name with its path, which never skips the export root, so the root is
      read as one dialog before the walk descends into the real dialogs. */
  function WalkRunAsWritten(ws: seq<WalkEntry>): WalkOutcome
    requires WalkOk(ws)
    decreases |ws|
  {
    if ws == [] then WalkOutcome([], [], None)
    else
      var w := ws[0];
      if !DispatchAsWritten(w.path, w.name, w.isDir) then WalkRunAsWritten(ws[1..])
      else
        var d := DialogRun(w.name, w.entries, Counts(0, 0));
        if d.err.Some? then WalkOutcome(d.log, [w.name], d.err)
        else
          var r := WalkRunAsWritten(ws[1..]);
          WalkOutcome(d.log + r.log, [w.name] + r.dialogs, r.err)
  }
}
