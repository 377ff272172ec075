/**
 * Which entries of the exported `messages` tree are dialogs and which files of
 * a dialog are pages (main.go:26-31, 43-46, 140-150).
 */
module DialogFilter {
  import opened Text

  /** Directory names of group chats start with this prefix. */
  const GroupChatPrefix: string := "200000"

  /** Page files of a dialog carry this word in their name. */
  const PageMarker: string := "messages"

  /** Name of the export root under the executable's directory. */
  const ExportDir: string := "messages"

  /** A chat with a bot or a community: its directory name starts with `-`.
      The source indexes the first byte, so it needs a non-empty name. */
  predicate IsCommunityChat(s: string)
    requires |s| > 0
  {
    s[0] == '-'
  }

  /** A group chat: its directory name starts with `200000`. */
  predicate IsGroupChat(s: string) {
    HasPrefix(s, GroupChatPrefix)
  }

  /** The test on line 29: a directory that is neither kind of chat above. */
  predicate IsDialogDir(name: string, isDir: bool)
    requires isDir ==> |name| > 0
  {
    isDir && !IsCommunityChat(name) && !IsGroupChat(name)
  }

  /** The walk callback of `main` as written: line 26 skips an entry whose base
      name equals its full path, then line 29 decides. */
  predicate DispatchAsWritten(path: string, name: string, isDir: bool)
    requires isDir ==> |name| > 0
  {
    name != path && IsDialogDir(name, isDir)
  }

  /** The walk callback of `main` as intended: skip the export root itself,
      then line 29 decides. */
  predicate Dispatch(root: string, path: string, name: string, isDir: bool)
    requires isDir ==> |name| > 0
  {
    path != root && IsDialogDir(name, isDir)
  }

  /** The test in `readDialog`: an entry other than the dialog directory itself
      whose name contains `messages`. */
  predicate IsPage(name: string, dirName: string) {
    name != dirName && Contains(name, PageMarker)
  }

  /** Names from an export: community and group chats are excluded, a
      one-to-one dialog and a name shorter than the group prefix are not,
      and a plain file never is a dialog. */
  lemma DialogDirExamples()
    ensures !IsDialogDir("-67890", true)
    ensures !IsDialogDir("200000123", true)
    ensures !IsDialogDir("2000001", true)
    ensures IsDialogDir("12345", true)
    ensures IsDialogDir("20000", true)
    ensures IsDialogDir("300000123", true)
    ensures !IsDialogDir("12345", false)
  {
    assert "200000123"[..6] == GroupChatPrefix;
    assert "2000001"[..6] == GroupChatPrefix;
    assert "300000123"[..6] != GroupChatPrefix by { assert "300000123"[0] != GroupChatPrefix[0]; }
  }

  /** A name is a dialog directory exactly when it starts with neither `-`
      nor `200000`; every name that starts with one of them is excluded,
      whatever follows. */
  lemma DialogDirIff(name: string)
    requires |name| > 0
    ensures IsDialogDir(name, true) <==> !HasPrefix(name, "-") && !HasPrefix(name, GroupChatPrefix)
    ensures forall rest: string :: !IsDialogDir("-" + rest, true) && !IsDialogDir(GroupChatPrefix + rest, true)
  {
    assert HasPrefix(name, "-") <==> name[0] == '-' by {
      assert HasPrefix(name, "-") ==> name[0] == name[..1][0];
    }
    forall rest: string
      ensures !IsDialogDir("-" + rest, true) && !IsDialogDir(GroupChatPrefix + rest, true)
    {
      assert (GroupChatPrefix + rest)[..|GroupChatPrefix|] == GroupChatPrefix;
    }
  }

  /** As written, the export root is handed to `readDialog` like a dialog:
      its entry's name is `messages` while its path is `<dir>/messages`. */
  lemma RootDispatchedAsWritten(exeDir: string)
    ensures DispatchAsWritten(exeDir + "/" + ExportDir, ExportDir, true)
  {
    assert |exeDir + "/" + ExportDir| > |ExportDir|;
    assert ExportDir[0] != GroupChatPrefix[0];
  }

  /** The page test of `readDialog`: any entry but the dialog directory
      whose name has `messages` at some position. */
  lemma PageIff(name: string, dirName: string)
    ensures IsPage(name, dirName) <==> name != dirName && exists i: nat :: OccursAt(name, PageMarker, i)
  {
    ContainsIff(name, PageMarker);
  }

  /** Page selection in `readDialog`: the dialog directory itself is skipped,
      a file named like a page is taken. */
  lemma PageExamples()
    ensures IsPage("messages0.html", "12345")
    ensures !IsPage("messages", "messages")
  {
    assert HasPrefix("messages0.html", PageMarker) by {
      assert "messages0.html"[..|PageMarker|] == PageMarker;
    }
  }
}
