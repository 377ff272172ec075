/**
 * What the pipeline guarantees: which dialogs are read, how failures stop it,
 * how attachments are numbered across the pages of a dialog, and that
 * directories are made before files are written into them.
 */
module PipelineFacts {
  import opened Wrappers
  import opened DialogFilter
  import opened Attachments
  import opened Pipeline

  /** Error isolation: a dialog fails exactly when one of its pages cannot be
      read, parsed or given its directories, and then with that page's error.
      Download and write failures never make it fail. */
  lemma {:induction false} DialogErrorIff(dirName: string, es: seq<Entry>, c: Counts)
    requires EntriesOk(es)
    ensures DialogRun(dirName, es, c).err.None?
        <==> forall i :: 0 <= i < |es| && IsPage(es[i].name, dirName) ==> PageError(es[i].page).None?
    ensures DialogRun(dirName, es, c).err.Some? ==>
        exists i :: 0 <= i < |es| && IsPage(es[i].name, dirName) && PageError(es[i].page) == DialogRun(dirName, es, c).err
    decreases |es|
  {
    if es != [] {
      var rest := es[1..];
      assert EntriesOk(rest);
      assert forall i :: 0 <= i < |rest| ==> rest[i] == es[i + 1];
      var p := PageRun(es[0].page, c);
      if !IsPage(es[0].name, dirName) {
        DialogErrorIff(dirName, rest, c);
      } else if p.err.None? {
        DialogErrorIff(dirName, rest, p.counts);
      }
    }
  }

  /** Nothing after a failing page is read: once a dialog has failed, further
      entries change neither its events, nor its counters, nor its error. */
  lemma {:induction false} DialogStopsAtFailure(dirName: string, a: seq<Entry>, b: seq<Entry>, c: Counts)
    requires EntriesOk(a) && EntriesOk(b)
    requires DialogRun(dirName, a, c).err.Some?
    ensures EntriesOk(a + b)
    ensures DialogRun(dirName, a + b, c) == DialogRun(dirName, a, c)
    decreases |a|
  {
    assert EntriesOk(a + b);
    assert a != [];
    assert (a + b)[0] == a[0];
    assert (a + b)[1..] == a[1..] + b;
    var p := PageRun(a[0].page, c);
    if !IsPage(a[0].name, dirName) {
      DialogStopsAtFailure(dirName, a[1..], b, c);
    } else if p.err.None? {
      DialogStopsAtFailure(dirName, a[1..], b, p.counts);
    }
  }

  /** The writes `w` of one kind are numbered `first`, `first + 1`, ... and
      carry, in order, the bytes and write outcome of the links `f`. */
  predicate NumberedFrom(w: seq<Event>, k: Kind, first: nat, f: seq<Anchor>)
    requires forall i :: 0 <= i < |f| ==> f[i].download.Some?
  {
    |w| == |f| &&
    forall i :: 0 <= i < |w| ==>
      w[i].Wrote? && w[i].target.kind == k && w[i].target.index == first + i &&
      w[i].data == f[i].download.value && w[i].saved == f[i].saved
  }

  lemma NumberedFromConcat(w1: seq<Event>, w2: seq<Event>, k: Kind, first: nat, f1: seq<Anchor>, f2: seq<Anchor>)
    requires forall i :: 0 <= i < |f1| ==> f1[i].download.Some?
    requires forall i :: 0 <= i < |f2| ==> f2[i].download.Some?
    requires NumberedFrom(w1, k, first, f1) && NumberedFrom(w2, k, first + |f1|, f2)
    ensures forall i :: 0 <= i < |f1 + f2| ==> (f1 + f2)[i].download.Some?
    ensures NumberedFrom(w1 + w2, k, first, f1 + f2)
  {
    var w, f := w1 + w2, f1 + f2;
    forall i | 0 <= i < |f| ensures f[i].download.Some? {
      if i >= |f1| {
        assert f[i] == f2[i - |f1|];
      }
    }
    forall i | 0 <= i < |w|
      ensures w[i].Wrote? && w[i].target.kind == k && w[i].target.index == first + i &&
              w[i].data == f[i].download.value && w[i].saved == f[i].saved
    {
      if i >= |w1| {
        assert w[i] == w2[i - |w1|] && f[i] == f2[i - |f1|];
      } else {
        assert w[i] == w1[i] && f[i] == f1[i];
      }
    }
  }

  lemma AdvanceConcat(c: Counts, a: seq<Anchor>, b: seq<Anchor>)
    requires AllSliceable(a) && AllSliceable(b)
    ensures AllSliceable(a + b)
    ensures Advance(Advance(c, a), b) == Advance(c, a + b)
  {
    OfKindConcat(a, b, Voice);
    OfKindConcat(a, b, Picture);
  }

  lemma WrittenOfDirs(log: seq<Event>, k: Kind)
    requires forall i :: 0 <= i < |log| ==> log[i].MadeDir?
    ensures Written(log, k) == []
    decreases |log|
  {
    if log != [] {
      WrittenOfDirs(log[1..], k);
    }
  }

  /** A page read in full writes its fetched links of kind `k` numbered on
      from the counter, and advances the counters by them. */
  lemma PageNumbering(p: Page, c: Counts, k: Kind)
    requires PageOk(p) && PageError(p).None?
    ensures NumberedFrom(Written(PageRun(p, c).log, k), k, c.Get(k) + 1, OfKind(p.source.anchors, k))
    ensures PageRun(p, c).counts == Advance(c, p.source.anchors)
  {
    var name, anchors := p.source.name, p.source.anchors;
    var emitted := Emit(name, anchors, c);
    PageRunWritten(p, c, k);
    EmitNumbering(name, anchors, c, k);
    NumberedIsNumberedFrom(name, k, c.Get(k) + 1, OfKind(anchors, k));
  }

  /** A page read in full writes what its loop writes. */
  lemma PageRunWritten(p: Page, c: Counts, k: Kind)
    requires PageOk(p) && PageError(p).None?
    ensures Written(PageRun(p, c).log, k) == Written(Emit(p.source.name, p.source.anchors, c), k)
    ensures PageRun(p, c).counts == Advance(c, p.source.anchors)
  {
    var name, anchors := p.source.name, p.source.anchors;
    var dirs := [MadeDir(name, Voice), MadeDir(name, Picture)];
    var emitted := Emit(name, anchors, c);
    assert PageRun(p, c).log == dirs + emitted;
    WrittenOfDirs(dirs, k);
    WrittenConcat(dirs, emitted, k);
  }

  lemma {:induction false} NumberedIsNumberedFrom(name: string, k: Kind, first: nat, f: seq<Anchor>)
    requires forall i :: 0 <= i < |f| ==> f[i].download.Some?
    ensures NumberedFrom(Numbered(name, k, first, f), k, first, f)
    decreases |f|
  {
    if f != [] {
      var w := Numbered(name, k, first, f);
      var tail := Numbered(name, k, first + 1, f[1..]);
      NumberedIsNumberedFrom(name, k, first + 1, f[1..]);
      assert w == [Wrote(Target(name, k, first), f[0].download.value, f[0].saved)] + tail;
      forall i | 0 <= i < |w|
        ensures w[i].Wrote? && w[i].target.kind == k && w[i].target.index == first + i &&
                w[i].data == f[i].download.value && w[i].saved == f[i].saved
      {
        if i > 0 {
          assert w[i] == tail[i - 1] && f[i] == f[1..][i - 1];
        }
      }
    }
  }

  /** Numbering across pages: the counters start where they are and persist
      from page to page, so over the pages read in full, the i-th fetched
      link of kind `k` (in page order, then document order) is written as
      number `c.Get(k) + i + 1`, and the counters end advanced by exactly the
      number of fetched links of each kind. With fresh counters the numbers
      of a dialog are 1, 2, 3, ... per kind. */
  lemma {:induction false} DialogNumbering(dirName: string, es: seq<Entry>, c: Counts, k: Kind)
    requires EntriesOk(es)
    ensures DialogRun(dirName, es, c).counts == Advance(c, DialogAnchors(dirName, es))
    ensures NumberedFrom(Written(DialogRun(dirName, es, c).log, k), k, c.Get(k) + 1, OfKind(DialogAnchors(dirName, es), k))
    decreases |es|
  {
    if es == [] {
      assert OfKind([], Voice) == [] && OfKind([], Picture) == [] && OfKind([], k) == [];
    } else {
      var rest := es[1..];
      assert EntriesOk(rest);
      var p := PageRun(es[0].page, c);
      if !IsPage(es[0].name, dirName) {
        DialogNumbering(dirName, rest, c, k);
      } else if p.err.Some? {
        WrittenOfDirs(p.log, k);
        assert OfKind([], Voice) == [] && OfKind([], Picture) == [] && OfKind([], k) == [];
      } else {
        var anchors := es[0].page.source.anchors;
        var c1 := p.counts;
        var more := DialogAnchors(dirName, rest);
        var r := DialogRun(dirName, rest, c1);
        PageNumbering(es[0].page, c, k);
        DialogNumbering(dirName, rest, c1, k);
        AdvanceConcat(c, anchors, more);
        OfKindConcat(anchors, more, k);
        WrittenConcat(p.log, r.log, k);
        NumberedFromConcat(Written(p.log, k), Written(r.log, k), k, c.Get(k) + 1, OfKind(anchors, k), OfKind(more, k));
      }
    }
  }

  lemma PageIncreasing(p: Page, c: Counts)
    requires PageOk(p)
    ensures Increasing(PageRun(p, c).log) && Within(PageRun(p, c).log, c, PageRun(p, c).counts)
    ensures Below(c, PageRun(p, c).counts)
  {
    if PageError(p).None? {
      var name, anchors := p.source.name, p.source.anchors;
      var dirs := [MadeDir(name, Voice), MadeDir(name, Picture)];
      assert PageRun(p, c).log == dirs + Emit(name, anchors, c);
      EmitIncreasing(name, anchors, c);
      ConcatIncreasing(dirs, Emit(name, anchors, c), c, c, Advance(c, anchors));
    }
  }

  /** Within a dialog, numbers strictly increase along the log for each kind,
      across all its pages, and lie between the counters before and after. */
  lemma {:induction false} DialogIncreasing(dirName: string, es: seq<Entry>, c: Counts)
    requires EntriesOk(es)
    ensures Increasing(DialogRun(dirName, es, c).log)
    ensures Within(DialogRun(dirName, es, c).log, c, DialogRun(dirName, es, c).counts)
    ensures Below(c, DialogRun(dirName, es, c).counts)
    decreases |es|
  {
    if es != [] {
      var rest := es[1..];
      assert EntriesOk(rest);
      var p := PageRun(es[0].page, c);
      PageIncreasing(es[0].page, c);
      if !IsPage(es[0].name, dirName) {
        DialogIncreasing(dirName, rest, c);
      } else if p.err.None? {
        var r := DialogRun(dirName, rest, p.counts);
        DialogIncreasing(dirName, rest, p.counts);
        ConcatIncreasing(p.log, r.log, c, p.counts, r.counts);
      }
    }
  }

  /** No two attachments of one dialog are written to the same file: the
      writes of a dialog have pairwise distinct paths, whatever display names
      its pages carry. */
  lemma DialogPathsDistinct(root: string, dirName: string, es: seq<Entry>)
    requires EntriesOk(es)
    ensures var log := DialogRun(dirName, es, Counts(0, 0)).log;
      forall i, j :: 0 <= i < j < |log| && log[i].Wrote? && log[j].Wrote? ==>
        PathOf(root, log[i].target) != PathOf(root, log[j].target)
  {
    var log := DialogRun(dirName, es, Counts(0, 0)).log;
    DialogIncreasing(dirName, es, Counts(0, 0));
    forall i, j | 0 <= i < j < |log| && log[i].Wrote? && log[j].Wrote?
      ensures PathOf(root, log[i].target) != PathOf(root, log[j].target)
    {
      PathOfInjective(root, log[i].target, log[j].target);
    }
  }

  /** Every write goes into a directory made earlier in the log. */
  predicate DirsFirst(log: seq<Event>) {
    forall j :: 0 <= j < |log| && log[j].Wrote? ==>
      exists i :: 0 <= i < j && log[i] == MadeDir(log[j].target.name, log[j].target.kind)
  }

  lemma ConcatDirsFirst(a: seq<Event>, b: seq<Event>)
    requires DirsFirst(a) && DirsFirst(b)
    ensures DirsFirst(a + b)
  {
    var ab := a + b;
    forall j | 0 <= j < |ab| && ab[j].Wrote?
      ensures exists i :: 0 <= i < j && ab[i] == MadeDir(ab[j].target.name, ab[j].target.kind)
    {
      if j < |a| {
        var i :| 0 <= i < j && a[i] == MadeDir(a[j].target.name, a[j].target.kind);
        assert ab[i] == a[i];
      } else {
        var jb := j - |a|;
        assert ab[j] == b[jb];
        var i :| 0 <= i < jb && b[i] == MadeDir(b[jb].target.name, b[jb].target.kind);
        assert ab[|a| + i] == b[i];
      }
    }
  }

  /** A page makes the voices and pictures directories of its own display
      name before its loop, and every write of its loop uses that name. */
  lemma PageDirsFirst(p: Page, c: Counts)
    requires PageOk(p)
    ensures DirsFirst(PageRun(p, c).log)
    ensures forall j :: 0 <= j < |PageRun(p, c).log| && PageRun(p, c).log[j].Wrote? ==>
      PageRun(p, c).log[j].target.name == p.source.name
  {
    if PageError(p).None? {
      var name, anchors := p.source.name, p.source.anchors;
      var dirs := [MadeDir(name, Voice), MadeDir(name, Picture)];
      var emitted := Emit(name, anchors, c);
      var log := dirs + emitted;
      assert PageRun(p, c).log == log;
      EmitIncreasing(name, anchors, c);
      forall j | 0 <= j < |log| && log[j].Wrote?
        ensures log[j].target.name == name
        ensures exists i :: 0 <= i < j && log[i] == MadeDir(log[j].target.name, log[j].target.kind)
      {
        assert j >= 2 && log[j] == emitted[j - 2];
        if log[j].target.kind == Voice {
          assert log[0] == MadeDir(name, Voice);
        } else {
          assert log[1] == MadeDir(name, Picture);
        }
      }
    }
  }

  /** Directories happen before files: across all the pages of a dialog,
      every file is written into a directory already made for the display
      name of the page it came from. */
  lemma {:induction false} DialogDirsFirst(dirName: string, es: seq<Entry>, c: Counts)
    requires EntriesOk(es)
    ensures DirsFirst(DialogRun(dirName, es, c).log)
    decreases |es|
  {
    if es != [] {
      var rest := es[1..];
      assert EntriesOk(rest);
      var p := PageRun(es[0].page, c);
      PageDirsFirst(es[0].page, c);
      if !IsPage(es[0].name, dirName) {
        DialogDirsFirst(dirName, rest, c);
      } else if p.err.None? {
        DialogDirsFirst(dirName, rest, p.counts);
        ConcatDirsFirst(p.log, DialogRun(dirName, rest, p.counts).log);
      }
    } else {
      assert DialogRun(dirName, es, c).log == [];
    }
  }

  /** Every name `Eligible` yields is a dialog directory. */
  lemma {:induction false} EligibleAreDialogs(root: string, ws: seq<WalkEntry>)
    requires WalkOk(ws)
    ensures forall i :: 0 <= i < |Eligible(root, ws)| ==>
      |Eligible(root, ws)[i]| > 0 && IsDialogDir(Eligible(root, ws)[i], true)
    decreases |ws|
  {
    if ws != [] {
      assert WalkOk(ws[1..]);
      EligibleAreDialogs(root, ws[1..]);
      var head: seq<string> := if Dispatch(root, ws[0].path, ws[0].name, ws[0].isDir) then [ws[0].name] else [];
      var tail := Eligible(root, ws[1..]);
      assert Eligible(root, ws) == head + tail;
      forall i | 0 <= i < |head + tail|
        ensures |(head + tail)[i]| > 0 && IsDialogDir((head + tail)[i], true)
      {
        if i >= |head| {
          assert (head + tail)[i] == tail[i - |head|];
        }
      }
    }
  }

  /** Filter correctness: the walk hands to `readDialog` the entries the
      filter accepts, in walk order, and no other: all of them when no
      dialog fails, and otherwise those up to and including the failing one,
      whose own error the walk returns. None of them is a community or group
      chat. */
  lemma WalkDialogs(root: string, ws: seq<WalkEntry>)
    requires WalkOk(ws)
    ensures WalkRun(root, ws).dialogs <= Eligible(root, ws)
    ensures WalkRun(root, ws).err.None? ==> WalkRun(root, ws).dialogs == Eligible(root, ws)
    ensures WalkRun(root, ws).err.Some? ==>
      exists i :: 0 <= i < |ws| && Dispatch(root, ws[i].path, ws[i].name, ws[i].isDir)
        && DialogRun(ws[i].name, ws[i].entries, Counts(0, 0)).err.Some?
        && WalkRun(root, ws).dialogs == Eligible(root, ws[..i + 1])
        && WalkRun(root, ws).err == DialogRun(ws[i].name, ws[i].entries, Counts(0, 0)).err
    ensures forall i :: 0 <= i < |WalkRun(root, ws).dialogs| ==>
      |WalkRun(root, ws).dialogs[i]| > 0 && IsDialogDir(WalkRun(root, ws).dialogs[i], true)
  {
    WalkDialogsEligible(root, ws);
    WalkFailingDialog(root, ws);
  }

  /** The dialogs read are a prefix of the accepted entries, all of them when
      no dialog fails, and each one a dialog directory. */
  lemma {:induction false} WalkDialogsEligible(root: string, ws: seq<WalkEntry>)
    requires WalkOk(ws)
    ensures WalkRun(root, ws).dialogs <= Eligible(root, ws)
    ensures WalkRun(root, ws).err.None? ==> WalkRun(root, ws).dialogs == Eligible(root, ws)
    ensures forall i :: 0 <= i < |WalkRun(root, ws).dialogs| ==>
      |WalkRun(root, ws).dialogs[i]| > 0 && IsDialogDir(WalkRun(root, ws).dialogs[i], true)
    decreases |ws|
  {
    if ws != [] {
      assert WalkOk(ws[1..]);
      WalkDialogsEligible(root, ws[1..]);
    }
    EligibleAreDialogs(root, ws);
    var d, e := WalkRun(root, ws).dialogs, Eligible(root, ws);
    assert forall i :: 0 <= i < |d| ==> d[i] == e[i];
  }

  /** A failing walk stops at a dispatched dialog that fails, having handed
      `readDialog` the accepted entries up to and including that one, and
      returns that dialog's own error. */
  lemma {:induction false} WalkFailingDialog(root: string, ws: seq<WalkEntry>)
    requires WalkOk(ws)
    ensures WalkRun(root, ws).err.Some? ==>
      exists i :: 0 <= i < |ws| && Dispatch(root, ws[i].path, ws[i].name, ws[i].isDir)
        && DialogRun(ws[i].name, ws[i].entries, Counts(0, 0)).err.Some?
        && WalkRun(root, ws).dialogs == Eligible(root, ws[..i + 1])
        && WalkRun(root, ws).err == DialogRun(ws[i].name, ws[i].entries, Counts(0, 0)).err
    decreases |ws|
  {
    if ws != [] && WalkRun(root, ws).err.Some? {
      var w, rest := ws[0], ws[1..];
      assert WalkOk(rest);
      var head: seq<string> := if Dispatch(root, w.path, w.name, w.isDir) then [w.name] else [];
      if Dispatch(root, w.path, w.name, w.isDir) && DialogRun(w.name, w.entries, Counts(0, 0)).err.Some? {
        assert ws[..1][1..] == [];
        assert Eligible(root, ws[..1]) == [w.name] + Eligible(root, []);
      } else {
        WalkFailingDialog(root, rest);
        var j :| 0 <= j < |rest| && Dispatch(root, rest[j].path, rest[j].name, rest[j].isDir)
          && DialogRun(rest[j].name, rest[j].entries, Counts(0, 0)).err.Some?
          && WalkRun(root, rest).dialogs == Eligible(root, rest[..j + 1])
          && WalkRun(root, rest).err == DialogRun(rest[j].name, rest[j].entries, Counts(0, 0)).err;
        assert ws[..j + 2][0] == w && ws[..j + 2][1..] == rest[..j + 1];
        assert Eligible(root, ws[..j + 2]) == head + Eligible(root, rest[..j + 1]);
        assert WalkRun(root, ws).dialogs == head + WalkRun(root, rest).dialogs;
        assert WalkRun(root, ws).err == WalkRun(root, rest).err;
        assert ws[j + 1] == rest[j];
      }
    }
  }

  /** The walk fails exactly when some dialog it reaches fails; a dialog that
      fails stops the whole walk. */
  lemma {:induction false} WalkErrorIff(root: string, ws: seq<WalkEntry>)
    requires WalkOk(ws)
    ensures WalkRun(root, ws).err.None? <==>
      forall i :: 0 <= i < |ws| && Dispatch(root, ws[i].path, ws[i].name, ws[i].isDir) ==>
        DialogRun(ws[i].name, ws[i].entries, Counts(0, 0)).err.None?
    decreases |ws|
  {
    if ws != [] {
      var rest := ws[1..];
      assert WalkOk(rest);
      assert forall i :: 0 <= i < |rest| ==> rest[i] == ws[i + 1];
      WalkErrorIff(root, rest);
    }
  }

  /** Nothing after a failing dialog is walked: further entries change
      neither the events, nor the dialogs read, nor the error. */
  lemma {:induction false} WalkStopsAtFailure(root: string, a: seq<WalkEntry>, b: seq<WalkEntry>)
    requires WalkOk(a) && WalkOk(b)
    requires WalkRun(root, a).err.Some?
    ensures WalkOk(a + b)
    ensures WalkRun(root, a + b) == WalkRun(root, a)
    decreases |a|
  {
    assert WalkOk(a + b);
    assert a != [];
    assert (a + b)[0] == a[0];
    assert (a + b)[1..] == a[1..] + b;
    assert WalkOk(a[1..]);
    var w := a[0];
    if !Dispatch(root, w.path, w.name, w.isDir) {
      WalkStopsAtFailure(root, a[1..], b);
    } else if DialogRun(w.name, w.entries, Counts(0, 0)).err.None? {
      WalkStopsAtFailure(root, a[1..], b);
    }
  }

  /** The walk gives the export root's own entry no dialog pass: with or
      without it in front, the walk does the same. */
  lemma WalkSkipsRoot(root: string, es: seq<Entry>, ws: seq<WalkEntry>)
    requires EntriesOk(es) && WalkOk(ws)
    ensures WalkOk([WalkEntry(root, ExportDir, true, es)] + ws)
    ensures WalkRun(root, [WalkEntry(root, ExportDir, true, es)] + ws) == WalkRun(root, ws)
  {
    var all := [WalkEntry(root, ExportDir, true, es)] + ws;
    assert all[0] == WalkEntry(root, ExportDir, true, es) && all[1..] == ws;
    assert WalkOk(all);
  }

  /** Below the root, where no entry's path is the root or its base name, the
      walk as written and the corrected walk do the same. */
  lemma {:induction false} AsWrittenBelowRoot(root: string, ws: seq<WalkEntry>)
    requires WalkOk(ws)
    requires forall i :: 0 <= i < |ws| ==> ws[i].path != root && ws[i].name != ws[i].path
    ensures WalkRunAsWritten(ws) == WalkRun(root, ws)
    decreases |ws|
  {
    if ws != [] {
      assert WalkOk(ws[1..]);
      assert forall i :: 0 <= i < |ws[1..]| ==> ws[1..][i] == ws[i + 1];
      AsWrittenBelowRoot(root, ws[1..]);
    }
  }

  /** As written, the walk first reads the whole export root as one dialog
      named `messages`, with one pair of counters from zero for every page
      under it; if that pass fails the walk ends with its error, and
      otherwise the walk goes on to read every dialog a second time, as the
      corrected walk would. */
  lemma RootReadAsOneDialog(exeDir: string, es: seq<Entry>, ws: seq<WalkEntry>)
    requires EntriesOk(es) && WalkOk(ws)
    requires forall i :: 0 <= i < |ws| ==> ws[i].path != exeDir + "/" + ExportDir && ws[i].name != ws[i].path
    ensures WalkOk([WalkEntry(exeDir + "/" + ExportDir, ExportDir, true, es)] + ws)
    ensures var d := DialogRun(ExportDir, es, Counts(0, 0));
            var o := WalkRunAsWritten([WalkEntry(exeDir + "/" + ExportDir, ExportDir, true, es)] + ws);
            var r := WalkRun(exeDir + "/" + ExportDir, ws);
            o.log == d.log + (if d.err.Some? then [] else r.log)
            && o.dialogs == [ExportDir] + (if d.err.Some? then [] else r.dialogs)
            && o.err == (if d.err.Some? then d.err else r.err)
  {
    var root := exeDir + "/" + ExportDir;
    var all := [WalkEntry(root, ExportDir, true, es)] + ws;
    assert all[0] == WalkEntry(root, ExportDir, true, es) && all[1..] == ws;
    assert WalkOk(all);
    RootDispatchedAsWritten(exeDir);
    AsWrittenBelowRoot(root, ws);
  }

  /** A dialog `12345` with one page linking `a.ogg`, `b.jpg` and `c.mp4`, all
      downloadable: the voices and pictures directories are made, all three
      URLs are fetched, and exactly voice 1 and picture 1 are written; the
      `.mp4` gives no file and no error. */
  lemma OnePageExample(name: string, ogg: Bytes, jpg: Bytes, mp4: Bytes)
    ensures var a := Anchor(Some("http://x/a.ogg"), Some(ogg), true);
            var b := Anchor(Some("http://x/b.jpg"), Some(jpg), true);
            var m := Anchor(Some("http://x/c.mp4"), Some(mp4), true);
            var page := Page(Parsed(name, [a, b, m]), true, true);
            var o := DialogRun("12345", [Entry("messages0.html", page)], Counts(0, 0));
            o.err == None && o.counts == Counts(1, 1) &&
            o.log == [MadeDir(name, Voice), MadeDir(name, Picture),
                      Fetch("http://x/a.ogg"), Wrote(Target(name, Voice, 1), ogg, true),
                      Fetch("http://x/b.jpg"), Wrote(Target(name, Picture, 1), jpg, true),
                      Fetch("http://x/c.mp4")]
  {
    var a := Anchor(Some("http://x/a.ogg"), Some(ogg), true);
    var b := Anchor(Some("http://x/b.jpg"), Some(jpg), true);
    var m := Anchor(Some("http://x/c.mp4"), Some(mp4), true);
    var page := Page(Parsed(name, [a, b, m]), true, true);
    var es := [Entry("messages0.html", page)];
    ExampleLoop(name, a, b, m);
    PageExamples();
    assert es[1..] == [];
    var p := PageRun(page, Counts(0, 0));
    assert p.log == [MadeDir(name, Voice), MadeDir(name, Picture)] + Emit(name, [a, b, m], Counts(0, 0));
    assert DialogRun("12345", es, Counts(0, 0)) == Outcome(p.log + [], p.counts, None);
  }

  lemma ExampleLoop(name: string, a: Anchor, b: Anchor, m: Anchor)
    requires a.href == Some("http://x/a.ogg") && a.download.Some?
    requires b.href == Some("http://x/b.jpg") && b.download.Some?
    requires m.href == Some("http://x/c.mp4") && m.download.Some?
    ensures AllSliceable([a, b, m])
    ensures Advance(Counts(0, 0), [a, b, m]) == Counts(1, 1)
    ensures Emit(name, [a, b, m], Counts(0, 0))
         == [Fetch("http://x/a.ogg"), Wrote(Target(name, Voice, 1), a.download.value, a.saved),
             Fetch("http://x/b.jpg"), Wrote(Target(name, Picture, 1), b.download.value, b.saved),
             Fetch("http://x/c.mp4")]
  {
    ExampleSteps(name, a, b, m);
    ExampleCounts(a, b, m);
    var anchors := [a, b, m];
    assert anchors[1..] == [b, m] && [b, m][1..] == [m] && [m][1..] == [];
    var e3 := Emit(name, [m], Counts(1, 1));
    assert Emit(name, [], Counts(1, 1)) == [];
    assert e3 == Step(name, m, Counts(1, 1)) + [];
    var e2 := Emit(name, [b, m], Counts(1, 0));
    assert e2 == Step(name, b, Counts(1, 0)) + e3;
    assert Emit(name, anchors, Counts(0, 0)) == Step(name, a, Counts(0, 0)) + e2;
  }

  lemma ExampleCounts(a: Anchor, b: Anchor, m: Anchor)
    requires a.href == Some("http://x/a.ogg") && a.download.Some?
    requires b.href == Some("http://x/b.jpg") && b.download.Some?
    requires m.href == Some("http://x/c.mp4") && m.download.Some?
    ensures AllSliceable([a, b, m])
    ensures Advance(Counts(0, 0), [a, b, m]) == Counts(1, 1)
  {
    ClassifyExamples();
    assert KindOf(a) == Some(Voice) && KindOf(b) == Some(Picture) && KindOf(m) == None;
    var anchors := [a, b, m];
    assert anchors[1..] == [b, m] && [b, m][1..] == [m] && [m][1..] == [];
    assert OfKind([m], Voice) == [] && OfKind([m], Picture) == [];
    assert OfKind([b, m], Voice) == [] && OfKind([b, m], Picture) == [b];
    assert OfKind(anchors, Voice) == [a] && OfKind(anchors, Picture) == [b];
  }

  lemma ExampleSteps(name: string, a: Anchor, b: Anchor, m: Anchor)
    requires a.href == Some("http://x/a.ogg") && a.download.Some?
    requires b.href == Some("http://x/b.jpg") && b.download.Some?
    requires m.href == Some("http://x/c.mp4") && m.download.Some?
    ensures Sliceable(a) && Sliceable(b) && Sliceable(m)
    ensures Next(Counts(0, 0), a) == Counts(1, 0) && Next(Counts(1, 0), b) == Counts(1, 1)
    ensures Next(Counts(1, 1), m) == Counts(1, 1)
    ensures Step(name, a, Counts(0, 0)) == [Fetch("http://x/a.ogg"), Wrote(Target(name, Voice, 1), a.download.value, a.saved)]
    ensures Step(name, b, Counts(1, 0)) == [Fetch("http://x/b.jpg"), Wrote(Target(name, Picture, 1), b.download.value, b.saved)]
    ensures Step(name, m, Counts(1, 1)) == [Fetch("http://x/c.mp4")]
  {
    ClassifyExamples();
    assert KindOf(a) == Some(Voice) && KindOf(b) == Some(Picture) && KindOf(m) == None;
  }
}
