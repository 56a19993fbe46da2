/**
 * The client's DOWNLOAD handler (client/.../DownloadHandler.java). execute
 * remembers where the file is to be saved and asks the server for it;
 * handle0 saves the reply there. The one field the two share, the pending
 * save path, is the state of a class.
 *
 * The user's home directory and the outcome of copying the bytes to disk
 * are inputs.
 */
module ClientDownload {
  import opened Wrappers
  import opened Bytes
  import opened JStrings
  import opened Commands
  import opened Frames
  import opened Paths
  import opened ClientCommands

  const WRONG_DOWNLOAD_ARGUMENTS: JString :=
    "Wrong number of arguments.\nYou have to pass only path to file in cloud and path to save file as arguments."
  const INVALID_SAVE_PATH: JString := "Invalid save path passed. Please check the path and try again."
  const UNWANTED_DOWNLOAD: JString := "Got unwanted DOWNLOAD payload"
  const SAVED_TO: JString := "File saved to "
  const SAVE_FAILED: JString := "Failed to save file from cloud: "

  /** Path.of("~"): the relative path whose only name is "~". */
  const UNIX_HOME: Path := Path(false, ["~"])

  /** What Files.copy does with the body: the file is written, or an IOException with this message. */
  datatype SaveOutcome = Saved | SaveFailed(message: JString)

  /**
   * A save path starting with "~" resolved against the home directory
   * after relativizing it against "~"; any other path is kept.
   */
  function ExpandHome(p: Path, home: Path): (r: Path)
    ensures StartsWith(p, UNIX_HOME) ==> StartsWith(r, home)
    ensures !StartsWith(p, UNIX_HOME) ==> r == p
  {
    if StartsWith(p, UNIX_HOME) then
      RelativizeDefined(UNIX_HOME, p);
      Resolve(home, Relativize(UNIX_HOME, p).value)
    else p
  }

  /**
   * execute: two arguments, the cloud path and the save path. An
   * acceptable save path becomes the pending one and the cloud path's
   * bytes are the DOWNLOAD request; otherwise the pending path stays.
   */
  function ExecuteResult(save: Option<Path>, args: seq<JString>): (r: (Option<Path>, Request))
    ensures |args| != 2 ==> r == (save, Refused(Runtime(WRONG_DOWNLOAD_ARGUMENTS)))
    ensures r.1.Write? <==> |args| == 2 && '\0' !in args[1]
    ensures r.1.Write? ==> r.0 == ParsePath(args[1]) && r.1.payload.cmd == Download
    ensures r.1.Write? ==> r.1.payload.body == Some(JStrings.GetBytes(args[0]))
    ensures r.1.Refused? ==> r.0 == save
  {
    if |args| != 2 then (save, Refused(Runtime(WRONG_DOWNLOAD_ARGUMENTS)))
    else
      match ParsePath(args[1])
      case None => (save, Refused(Runtime(INVALID_SAVE_PATH)))
      case Some(p) => (Some(p), Write(Payload(Download, Some(JStrings.GetBytes(args[0])))))
  }

  /**
   * handle0: a reply with no pending save path, or a null body, throws.
   * Otherwise the path is expanded and kept, the bytes are copied there,
   * and the line shown says where; a saved file clears the pending path.
   */
  function HandleResult(save: Option<Path>, body: Option<seq<byte>>, home: Path, outcome: SaveOutcome)
    : (r: (Option<Path>, Result<JString, Exception>))
    ensures save.None? ==> r == (save, Err(Runtime(UNWANTED_DOWNLOAD)))
    ensures save.Some? && body.None? ==> r == (save, Err(NullPointer))
    ensures r.1.Err? ==> r.0 == save
    ensures r.1.Ok? <==> save.Some? && body.Some?
    ensures r.1.Ok? && outcome.Saved? ==> r.0.None? && r.1.value == SAVED_TO + PathString(ExpandHome(save.value, home))
    ensures r.1.Ok? && outcome.SaveFailed? ==>
      r.0 == Some(ExpandHome(save.value, home)) && r.1.value == SAVE_FAILED + outcome.message
  {
    if save.None? then (save, Err(Runtime(UNWANTED_DOWNLOAD)))
    else if body.None? then (save, Err(NullPointer))
    else
      var target := ExpandHome(save.value, home);
      match outcome
      case Saved => (None, Ok(SAVED_TO + PathString(target)))
      case SaveFailed(m) => (Some(target), Ok(SAVE_FAILED + m))
  }

  class DownloadHandler {
    /** currentSaveFilePath; None stands for null. */
    var currentSaveFilePath: Option<Path>

    constructor()
      ensures currentSaveFilePath.None?
    {
      currentSaveFilePath := None;
    }

    method Execute(args: seq<JString>) returns (r: Request)
      modifies this
      ensures (currentSaveFilePath, r) == ExecuteResult(old(currentSaveFilePath), args)
    {
      if |args| != 2 {
        return Refused(Runtime(WRONG_DOWNLOAD_ARGUMENTS));
      }
      var cloudPath, clientPath := args[0], args[1];
      var p := ParsePath(clientPath);
      if p.None? {
        return Refused(Runtime(INVALID_SAVE_PATH));
      }
      currentSaveFilePath := p;
      r := Write(Payload(Download, Some(JStrings.GetBytes(cloudPath))));
    }

    /** `home` is the user.home property; `outcome` is what Files.copy does. */
    method Handle0(body: Option<seq<byte>>, home: Path, outcome: SaveOutcome) returns (r: Result<JString, Exception>)
      modifies this
      ensures (currentSaveFilePath, r) == HandleResult(old(currentSaveFilePath), body, home, outcome)
    {
      if currentSaveFilePath.None? {
        return Err(Runtime(UNWANTED_DOWNLOAD));
      }
      if body.None? {
        return Err(NullPointer);
      }
      if StartsWith(currentSaveFilePath.value, UNIX_HOME) {
        RelativizeDefined(UNIX_HOME, currentSaveFilePath.value);
        currentSaveFilePath := Some(Resolve(home, Relativize(UNIX_HOME, currentSaveFilePath.value).value));
      }
      match outcome {
        case Saved =>
          r := Ok(SAVED_TO + PathString(currentSaveFilePath.value));
          currentSaveFilePath := None;
        case SaveFailed(m) =>
          r := Ok(SAVE_FAILED + m);
      }
    }
  }

  // ---------------------------------------------------------------------
  // Properties

  /**
   * A well-formed save path starting with "~" whose normal form still
   * starts with "~" becomes the home directory followed by the normal
   * form's names after "~": "." and ".." are folded away first.
   */
  lemma ExpandHomeNormalizes(p: Path, home: Path)
    ensures WellFormed(p) && StartsWith(p, UNIX_HOME) && StartsWith(Normalize(p), UNIX_HOME) ==>
      ExpandHome(p, home) == Resolve(home, Path(false, Normalize(p).names[1..]))
  {
    if WellFormed(p) && StartsWith(p, UNIX_HOME) && StartsWith(Normalize(p), UNIX_HOME) && p != UNIX_HOME {
      var q := Normalize(p);
      NormalizeWellFormed(p);
      assert HasDots(p) ==> Normalize(UNIX_HOME) == UNIX_HOME;
      var c := IndexedNames(if HasDots(p) then q else p);
      if !HasDots(p) {
        DotFreeNormal(false, p.names);
        NormalizeIdempotent(p);
      }
      assert c == q.names && c[0] == "~";
      assert CommonPrefix(["~"], c) == 1;
      if |c| > 1 {
        assert c[1..][0] == c[1] != [];
      }
    }
  }

  /**
   * A save path under "~" without "." or ".." lands under the home
   * directory with the names after "~" kept in order; any other save path
   * is used as given.
   */
  lemma ExpandHomeUnderHome(p: Path, home: Path)
    ensures WellFormed(p) && !HasDots(p) && StartsWith(p, UNIX_HOME) ==>
      StartsWith(ExpandHome(p, home), home)
      && RelativizeUnder(home, ExpandHome(p, home)) == RelativizeUnder(UNIX_HOME, p)
    ensures !StartsWith(p, UNIX_HOME) ==> ExpandHome(p, home) == p
  {
    if WellFormed(p) && !HasDots(p) && StartsWith(p, UNIX_HOME) {
      RelativizeDotFree(UNIX_HOME, p);
      var r := ExpandHome(p, home);
      assert r.names == home.names + p.names[1..];
      assert r.names[|home.names|..] == p.names[1..];
    }
  }

  /** "~/a/./f" is saved as home/a/f. */
  lemma ExpandHomeDropsDot(home: Path)
    ensures ExpandHome(Path(false, ["~", "a", ".", "f"]), home) == Resolve(home, Path(false, ["a", "f"]))
  {
    var p := Path(false, ["~", "a", ".", "f"]);
    assert WellFormed(p);
    assert NormalizeFrom(false, ["~", "a"], [".", "f"]) == ["~", "a", "f"];
    assert NormalizeFrom(false, [], p.names) == NormalizeFrom(false, ["~", "a"], [".", "f"]);
    ExpandHomeNormalizes(p, home);
  }

  /** "~/a/../b" is saved as home/b. */
  lemma ExpandHomeFoldsUp(home: Path)
    ensures ExpandHome(Path(false, ["~", "a", "..", "b"]), home) == Resolve(home, Path(false, ["b"]))
  {
    var p := Path(false, ["~", "a", "..", "b"]);
    assert WellFormed(p);
    assert NormalizeFrom(false, ["~", "a"], ["..", "b"]) == ["~", "b"];
    assert NormalizeFrom(false, [], p.names) == NormalizeFrom(false, ["~", "a"], ["..", "b"]);
    ExpandHomeNormalizes(p, home);
  }

  /** Expanding twice is expanding once, when the home directory is absolute. */
  lemma ExpandHomeIdempotent(p: Path, home: Path)
    requires home.absolute
    ensures ExpandHome(ExpandHome(p, home), home) == ExpandHome(p, home)
  {
  }

  /**
   * One DOWNLOAD exchange: an accepted request followed by a reply that is
   * saved leaves nothing pending and names where the file went; when the
   * save fails the expanded path stays pending for the next reply.
   */
  lemma {:induction false} DownloadOneShot(save: Option<Path>, args: seq<JString>, body: seq<byte>, home: Path, outcome: SaveOutcome)
    requires ExecuteResult(save, args).1.Write?
    ensures var p := ExecuteResult(save, args).0;
      var h := HandleResult(p, Some(body), home, outcome);
      && h.1.Ok?
      && (outcome.Saved? ==> h.0.None? && h.1.value == SAVED_TO + PathString(ExpandHome(ParsePath(args[1]).value, home)))
      && (outcome.SaveFailed? ==> h.0 == Some(ExpandHome(ParsePath(args[1]).value, home)))
  {
  }
}
