/**
 * The extractor, with the walk's root test corrected: `main` walks the export
 * root (without the as-written pass over the root itself, main.go:26),
 * `readDialog` creates the two counters of a dialog and hands them to
 * `readDialogFile` for every page, and `readDialogFile` loops over the links
 * of a page, bumping the counters in place. The disk, the parser and the
 * network are replaced by their recorded outcomes (see module Pipeline); what
 * the extractor does to the world is appended to an event log.
 */
module Extractor {
  import opened Wrappers
  import opened DialogFilter
  import opened Attachments
  import opened Pipeline

  /** `oggCount` and `jpgCount` of `readDialog` (main.go:41), which
      `readDialogFile` updates through pointers. */
  class Counters {
    var ogg: nat
    var jpg: nat

    constructor ()
      ensures ogg == 0 && jpg == 0
    {
      ogg, jpg := 0, 0;
    }

    function Value(): Counts
      reads this
    {
      Counts(ogg, jpg)
    }

    /** `atomic.AddInt64(count, 1)`: bump the counter of kind `k` and return
        its new value. */
    method Add(k: Kind) returns (n: nat)
      modifies this
      ensures Value() == old(Value()).Bump(k)
      ensures n == Value().Get(k)
    {
      match k
      case Voice =>
        ogg := ogg + 1;
        n := ogg;
      case Picture =>
        jpg := jpg + 1;
        n := jpg;
    }
  }

  /** The extractor rooted at the executable's directory, with the log of
      every directory made, URL fetched and file written so far. */
  class Extractor {
    const root: string
    var log: seq<Event>

    constructor (root: string)
      ensures this.root == root && log == []
    {
      this.root := root;
      log := [];
    }

    /** `readDialogFile` (main.go:56-105): read and parse the page, make its
        two directories, then download, classify, number and write each link.
        A download or write failure skips that link only; the error returned
        is the read, parse or mkdir error, if any. */
    method ReadDialogFile(page: Page, counters: Counters) returns (err: Option<Failure>)
      requires PageOk(page)
      modifies this, counters
      ensures log == old(log) + PageRun(page, old(counters.Value())).log
      ensures counters.Value() == PageRun(page, old(counters.Value())).counts
      ensures err == PageRun(page, old(counters.Value())).err
      ensures err.None? <==> page.source.Parsed? && page.voicesDirMade && page.picturesDirMade
    {
      match page.source
      case Unreadable =>
        return Some(ReadFailed);
      case Malformed =>
        return Some(ParseFailed);
      case Parsed(name, anchors) =>
        if !page.voicesDirMade {
          return Some(MkdirFailed(Voice));
        }
        log := log + [MadeDir(name, Voice)];
        if !page.picturesDirMade {
          return Some(MkdirFailed(Picture));
        }
        log := log + [MadeDir(name, Picture)];
        SaveAttachments(name, anchors, counters);
        err := None;
    }

    /** The `Each` loop of `readDialogFile` (main.go:79-103) over the links of
        a page named `name`, in document order, with the dialog's counters. */
    method SaveAttachments(name: string, anchors: seq<Anchor>, counters: Counters)
      requires AllSliceable(anchors)
      modifies this, counters
      ensures log == old(log) + Emit(name, anchors, old(counters.Value()))
      ensures counters.Value() == Advance(old(counters.Value()), anchors)
    {
      ghost var c0 := counters.Value();
      var rest := anchors;
      while rest != []
        invariant AllSliceable(rest)
        invariant old(log) + Emit(name, anchors, c0) == log + Emit(name, rest, counters.Value())
        invariant Advance(c0, anchors) == Advance(counters.Value(), rest)
        decreases |rest|
      {
        AdvanceStep(counters.Value(), rest);
        EmitStep(name, rest, counters.Value(), log, old(log) + Emit(name, anchors, c0));
        SaveAttachment(name, rest[0], counters);
        rest := rest[1..];
      }
    }

    /** The `Each` callback for one link (main.go:80-102): a link without
        `href` is skipped; the others are downloaded, and a failed download
        skips the link; the last three characters of the URL choose the
        counter to bump and the path to write, any other suffix is skipped;
        a failed write is ignored. */
    method SaveAttachment(name: string, a: Anchor, counters: Counters)
      requires Sliceable(a)
      modifies this, counters
      ensures log == old(log) + Step(name, a, old(counters.Value()))
      ensures counters.Value() == Next(old(counters.Value()), a)
    {
      if a.href.Some? {
        var url := a.href.value;
        log := log + [Fetch(url)];
        if a.download.Some? {
          var ext := url[|url| - 3..];
          if ext == "ogg" {
            var n := counters.Add(Voice);
            log := log + [Wrote(Target(name, Voice, n), a.download.value, a.saved)];
          } else if ext == "jpg" {
            var n := counters.Add(Picture);
            log := log + [Wrote(Target(name, Picture, n), a.download.value, a.saved)];
          }
        }
      }
    }

    /** `readDialog` (main.go:40-54): fresh counters for the dialog, shared by
        all its pages; the entries whose names mark them as pages are read in
        walk order, and the first error ends the dialog. */
    method ReadDialog(dirName: string, entries: seq<Entry>) returns (err: Option<Failure>)
      requires EntriesOk(entries)
      modifies this
      ensures log == old(log) + DialogRun(dirName, entries, Counts(0, 0)).log
      ensures err == DialogRun(dirName, entries, Counts(0, 0)).err
    {
      var counters := new Counters();
      ghost var whole := DialogRun(dirName, entries, Counts(0, 0));
      var i := 0;
      while i < |entries|
        invariant 0 <= i <= |entries|
        invariant EntriesOk(entries[i..])
        invariant old(log) + whole.log == log + DialogRun(dirName, entries[i..], counters.Value()).log
        invariant whole.err == DialogRun(dirName, entries[i..], counters.Value()).err
      {
        var e := entries[i];
        assert entries[i..][0] == e && entries[i..][1..] == entries[i + 1..];
        if IsPage(e.name, dirName) {
          err := ReadDialogFile(e.page, counters);
          if err.Some? {
            return;
          }
        }
        i := i + 1;
      }
      err := None;
    }

    /** The walk of `main` (main.go:25-36) over the export root
        `<root>/messages`, with line 26 corrected so that the root itself is
        not read as a dialog: every entry the filter accepts is read as a
        dialog; the first failing dialog stops the walk, and `main` then
        exits. */
    method Walk(walked: seq<WalkEntry>) returns (err: Option<Failure>, dialogs: seq<string>)
      requires WalkOk(walked)
      modifies this
      ensures log == old(log) + WalkRun(root + "/" + ExportDir, walked).log
      ensures dialogs == WalkRun(root + "/" + ExportDir, walked).dialogs
      ensures err == WalkRun(root + "/" + ExportDir, walked).err
    {
      var exportRoot := root + "/" + ExportDir;
      ghost var whole := WalkRun(exportRoot, walked);
      dialogs := [];
      var i := 0;
      while i < |walked|
        invariant 0 <= i <= |walked|
        invariant WalkOk(walked[i..])
        invariant old(log) + whole.log == log + WalkRun(exportRoot, walked[i..]).log
        invariant whole.dialogs == dialogs + WalkRun(exportRoot, walked[i..]).dialogs
        invariant whole.err == WalkRun(exportRoot, walked[i..]).err
      {
        var w := walked[i];
        assert walked[i..][0] == w && walked[i..][1..] == walked[i + 1..];
        if Dispatch(exportRoot, w.path, w.name, w.isDir) {
          dialogs := dialogs + [w.name];
          err := ReadDialog(w.name, w.entries);
          if err.Some? {
            return;
          }
        }
        i := i + 1;
      }
      err := None;
    }
  }
}
