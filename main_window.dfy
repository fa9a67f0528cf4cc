/**
 * The logic of the desktop window in aura/gui/main_window.py, without Qt: the
 * frame dialog's cleaning and validation, the window's list of frames and its
 * add, edit and remove commands, the checks made before a download starts,
 * and the middle ellipsis used to show long file names.
 */
module MainWindowGui {
  import opened Wrappers
  import opened PyText

  /* ---------------- _truncate_filename ---------------- */

  const DefaultMaxLength: int := 35
  const Ellipsis: string := "..."

  /** Python's (maxLength - 3) // 2: Dafny's / floors when the divisor is positive. */
  function KeepChars(maxLength: int): int
  {
    (maxLength - 3) / 2
  }

  /** _truncate_filename as written: filename[:keep] + "..." + filename[-keep:]. */
  function TruncateFilename(filename: string, maxLength: int): string
  {
    if |filename| <= maxLength then filename
    else
      var keep := KeepChars(maxLength);
      SliceTo(filename, keep) + Ellipsis + SliceFrom(filename, -keep)
  }

  /** A name that fits is shown as it is. */
  lemma TruncateKeepsShortNames(filename: string, maxLength: int)
    requires |filename| <= maxLength
    ensures TruncateFilename(filename, maxLength) == filename
  {
  }

  /** From a limit of five up, a long name keeps its first and last keep characters
      around the ellipsis and fits the limit, exactly when the limit is odd. */
  lemma TruncateShape(filename: string, maxLength: int)
    requires 5 <= maxLength < |filename|
    ensures var k := KeepChars(maxLength);
            var r := TruncateFilename(filename, maxLength);
            1 <= k && r == filename[..k] + Ellipsis + filename[|filename| - k..]
            && |r| == 2 * k + 3 <= maxLength
            && (maxLength % 2 == 1 ==> |r| == maxLength)
  {
    var k := KeepChars(maxLength);
    assert SliceIndex(k, |filename|) == k;
    assert SliceIndex(-k, |filename|) == |filename| - k;
  }

  /** With the default limit a long name is shown as exactly 35 characters:
      16 from the start, the ellipsis, 16 from the end. */
  lemma TruncateDefault(filename: string)
    requires |filename| > DefaultMaxLength
    ensures var r := TruncateFilename(filename, DefaultMaxLength);
            |r| == DefaultMaxLength && r == filename[..16] + Ellipsis + filename[|filename| - 16..]
  {
    TruncateShape(filename, DefaultMaxLength);
  }

  /** With a limit of 3 or 4, keep is 0 and filename[-0:] is the whole name, so
      the result is the ellipsis before the whole name: longer than the input. */
  lemma TruncateSmallLimitGrows(filename: string, maxLength: int)
    requires 3 <= maxLength <= 4 && maxLength < |filename|
    ensures TruncateFilename(filename, maxLength) == Ellipsis + filename
    ensures |TruncateFilename(filename, maxLength)| > |filename|
  {
    assert KeepChars(maxLength) == 0;
    assert SliceIndex(0, |filename|) == 0;
    assert filename[..0] == [];
  }

  /** The intended truncation: the tail is taken by its length, so no limit of
      three or more lets the result exceed it. */
  function TruncateFilenameIntended(filename: string, maxLength: int): (r: string)
    ensures |filename| <= maxLength ==> r == filename
    ensures 3 <= maxLength < |filename| ==>
              var k := KeepChars(maxLength);
              r == filename[..k] + Ellipsis + filename[|filename| - k..] && |r| <= maxLength
  {
    if |filename| <= maxLength then filename
    else
      var keep := if maxLength < 3 then 0 else KeepChars(maxLength);
      filename[..keep] + Ellipsis + filename[|filename| - keep..]
  }

  /** The two agree on every limit from five up, the default included. */
  lemma TruncateAgreesFromFive(filename: string, maxLength: int)
    requires 5 <= maxLength
    ensures TruncateFilename(filename, maxLength) == TruncateFilenameIntended(filename, maxLength)
  {
    if maxLength < |filename| {
      TruncateShape(filename, maxLength);
    }
  }

  /* ---------------- FrameDialog ---------------- */

  /** The texts of the dialog's three line edits. */
  datatype FrameFields = FrameFields(name: string, frameId: string, path: string)

  /** A frame as the window stores it: {name, frame_id, path}. */
  datatype Frame = Frame(name: string, frameId: string, path: string)

  /** get_data: each field stripped. */
  function GetData(fields: FrameFields): Frame
  {
    Frame(Strip(fields.name), Strip(fields.frameId), Strip(fields.path))
  }

  /** Each stored field is its text without the surrounding whitespace, and is
      empty exactly when the text is blank. */
  lemma GetDataStrips(fields: FrameFields)
    ensures var r := GetData(fields);
            && StrippedFrom(fields.name, r.name)
            && StrippedFrom(fields.frameId, r.frameId)
            && StrippedFrom(fields.path, r.path)
            && (r.name == [] <==> Blank(fields.name))
            && (r.frameId == [] <==> Blank(fields.frameId))
            && (r.path == [] <==> Blank(fields.path))
  {
    StripShape(fields.name);
    StripShape(fields.frameId);
    StripShape(fields.path);
  }

  datatype Verdict = Accepted | Rejected(message: string)

  predicate Complete(f: Frame)
  {
    f.name != [] && f.frameId != [] && f.path != []
  }

  /** accept: the dialog closes only when no field is blank; otherwise it warns
      about the first blank field, in the order name, frame id, path. */
  function Accept(fields: FrameFields): (v: Verdict)
    ensures v == Accepted <==> Complete(GetData(fields))
  {
    var data := GetData(fields);
    if data.name == [] then Rejected("Frame name is required.")
    else if data.frameId == [] then Rejected("Frame ID is required.")
    else if data.path == [] then Rejected("Download path is required.")
    else Accepted
  }

  /** Which warning accept gives, stated on the raw texts: a field counts as
      missing when it is blank. */
  lemma AcceptWarnings(fields: FrameFields)
    ensures Accept(fields) == Accepted <==>
              !Blank(fields.name) && !Blank(fields.frameId) && !Blank(fields.path)
    ensures Accept(fields) == Rejected("Frame name is required.") <==> Blank(fields.name)
    ensures Accept(fields) == Rejected("Frame ID is required.") <==>
              !Blank(fields.name) && Blank(fields.frameId)
    ensures Accept(fields) == Rejected("Download path is required.") <==>
              !Blank(fields.name) && !Blank(fields.frameId) && Blank(fields.path)
  {
    GetDataStrips(fields);
  }

  /** The k-th press of OK is the one that closes the dialog. */
  predicate ClosesAt(presses: seq<FrameFields>, k: int)
  {
    && 0 <= k < |presses| && Accept(presses[k]) == Accepted
    && forall j :: 0 <= j < k ==> Accept(presses[j]) != Accepted
  }

  /** dialog.exec() followed by get_data(): presses holds the fields at each press
      of OK; the first press that passes accept closes the dialog, and if none
      does the user leaves with Cancel. */
  function ExecDialog(presses: seq<FrameFields>): (r: Option<Frame>)
    ensures r.Some? <==> exists k :: 0 <= k < |presses| && Accept(presses[k]) == Accepted
    ensures r.Some? ==> Complete(r.value)
  {
    if presses == [] then None
    else if Accept(presses[0]) == Accepted then Some(GetData(presses[0]))
    else
      var r := ExecDialog(presses[1..]);
      assert forall k :: 1 <= k < |presses| ==> presses[k] == presses[1..][k - 1];
      r
  }

  /** The frame the dialog gives is the cleaned fields of the first press that
      passes validation. */
  lemma {:induction false} ExecDialogFirstAccepted(presses: seq<FrameFields>)
    ensures ExecDialog(presses).Some? ==>
              exists k :: ClosesAt(presses, k) && ExecDialog(presses).value == GetData(presses[k])
  {
    if presses != [] && Accept(presses[0]) != Accepted {
      ExecDialogFirstAccepted(presses[1..]);
      if ExecDialog(presses).Some? {
        var k :| ClosesAt(presses[1..], k) && ExecDialog(presses[1..]).value == GetData(presses[1..][k]);
        assert ClosesAt(presses, k + 1) by {
          forall j | 0 <= j < k + 1 ensures Accept(presses[j]) != Accepted {
            if j > 0 { assert presses[j] == presses[1..][j - 1]; }
          }
        }
      }
    } else if presses != [] {
      assert ClosesAt(presses, 0);
    }
  }

  /** The fields the edit dialog is filled with. */
  function Prefill(f: Frame): FrameFields
  {
    FrameFields(f.name, f.frameId, f.path)
  }

  /** Pressing OK on an edit dialog left as it was filled gives back the same
      frame, for any frame the dialog itself produced. */
  lemma UnchangedEditKeepsFrame(f: Frame, raw: FrameFields)
    requires Accept(raw) == Accepted && f == GetData(raw)
    ensures ExecDialog([Prefill(f)]) == Some(f)
  {
    StripIdempotent(raw.name);
    StripIdempotent(raw.frameId);
    StripIdempotent(raw.path);
  }

  /* ---------------- MainWindow ---------------- */

  predicate AllComplete(frames: seq<Frame>)
  {
    forall k :: 0 <= k < |frames| ==> Complete(frames[k])
  }

  /** What _start_download decides: a warning, or a worker started with these
      credentials on this frame. */
  datatype StartDecision =
    | Refused(title: string, message: string)
    | Launch(email: string, password: string, frame: Frame)

  class MainWindow {
    /** self.frames, in list order. */
    var frames: seq<Frame>

    /** The window as built, before any saved frames are loaded. */
    constructor ()
      ensures frames == []
    {
      frames := [];
    }

    /** _add_frame: an accepted dialog appends its frame. */
    method AddFrame(presses: seq<FrameFields>)
      modifies this
      ensures frames == match ExecDialog(presses)
                        case Some(f) => old(frames) + [f]
                        case None => old(frames)
      ensures AllComplete(old(frames)) ==> AllComplete(frames)
    {
      var result := ExecDialog(presses);
      if result.Some? {
        var f := result.value;
        assert Complete(f);
        frames := frames + [f];
        assert frames[|frames| - 1] == f;
      }
    }

    /** _edit_frame: selection is the list widget's current row, whose rows mirror
        frames; an accepted dialog replaces that frame and no other. */
    method EditFrame(selection: Option<nat>, presses: seq<FrameFields>) returns (notice: Option<string>)
      requires selection.Some? ==> selection.value < |frames|
      modifies this
      ensures selection.None? ==> notice == Some("Please select a frame to edit.") && frames == old(frames)
      ensures selection.Some? ==> notice == None
      ensures selection.Some? ==>
                frames == match ExecDialog(presses)
                          case Some(f) => old(frames)[selection.value := f]
                          case None => old(frames)
      ensures AllComplete(old(frames)) ==> AllComplete(frames)
    {
      if selection.None? {
        return Some("Please select a frame to edit.");
      }
      var result := ExecDialog(presses);
      if result.Some? {
        frames := frames[selection.value := result.value];
      }
      notice := None;
    }

    /** _remove_frame: after a Yes the selected frame is deleted; the others keep
        their order. */
    method RemoveFrame(selection: Option<nat>, confirmed: bool) returns (notice: Option<string>)
      requires selection.Some? ==> selection.value < |frames|
      modifies this
      ensures selection.None? ==> notice == Some("Please select a frame to remove.") && frames == old(frames)
      ensures selection.Some? ==> notice == None
      ensures selection.Some? && !confirmed ==> frames == old(frames)
      ensures selection.Some? && confirmed ==>
                var i := selection.value;
                |frames| == |old(frames)| - 1
                && (forall k :: 0 <= k < i ==> frames[k] == old(frames)[k])
                && (forall k :: i <= k < |frames| ==> frames[k] == old(frames)[k + 1])
      ensures AllComplete(old(frames)) ==> AllComplete(frames)
    {
      if selection.None? {
        return Some("Please select a frame to remove.");
      }
      if confirmed {
        var i := selection.value;
        frames := frames[..i] + frames[i + 1..];
      }
      notice := None;
    }

    /** The checks of _start_download, in order, and the search for the first
        frame whose name is the one chosen in the combo box. */
    method StartDownload(emailText: string, passwordText: string, selectedName: string)
      returns (d: StartDecision)
      ensures Strip(emailText) == [] || Strip(passwordText) == [] ==>
                d == Refused("Missing Credentials", "Please enter your email and password.")
      ensures Strip(emailText) != [] && Strip(passwordText) != [] && frames == [] ==>
                d == Refused("No Frames", "Please add at least one frame.")
      ensures Strip(emailText) != [] && Strip(passwordText) != [] && frames != [] && selectedName == [] ==>
                d == Refused("No Frame Selected", "Please select a frame to download from.")
      ensures Strip(emailText) != [] && Strip(passwordText) != [] && selectedName != []
              && (forall k :: 0 <= k < |frames| ==> frames[k].name != selectedName) && frames != [] ==>
                d == Refused("Error", "Selected frame not found.")
      ensures d.Launch? <==> Strip(emailText) != [] && Strip(passwordText) != [] && selectedName != []
                             && exists k :: 0 <= k < |frames| && frames[k].name == selectedName
      ensures d.Launch? ==>
                d.email == Strip(emailText) && d.password == Strip(passwordText)
                && exists k :: 0 <= k < |frames| && frames[k] == d.frame && d.frame.name == selectedName
                               && forall j :: 0 <= j < k ==> frames[j].name != selectedName
    {
      var email := Strip(emailText);
      var password := Strip(passwordText);
      if email == [] || password == [] {
        return Refused("Missing Credentials", "Please enter your email and password.");
      }
      if frames == [] {
        return Refused("No Frames", "Please add at least one frame.");
      }
      if selectedName == [] {
        return Refused("No Frame Selected", "Please select a frame to download from.");
      }
      var i := 0;
      while i < |frames| && frames[i].name != selectedName
        invariant 0 <= i <= |frames|
        invariant forall j :: 0 <= j < i ==> frames[j].name != selectedName
      {
        i := i + 1;
      }
      if i == |frames| {
        return Refused("Error", "Selected frame not found.");
      }
      d := Launch(email, password, frames[i]);
    }
  }
}
