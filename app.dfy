/**
 * The session controller of the capture station: a patient session is
 * started (camera opened, session folder created), snapshots are captured
 * into the session folder, and the session is finished by building the
 * report from the captured paths. The camera, the clock, the dialog answers
 * and the file system are inputs of the operations.
 */
module App {
  import opened Strings
  import Report

  datatype Option<T> = None | Some(value: T)

  /** A camera frame, as opaque bytes. */
  type Frame = seq<bv8>

  /** The camera field: nothing opened yet, or a capture device, open or not. */
  datatype Camera = NoCamera | VideoCapture(isOpened: bool)

  /** Releasing a device closes it; with no device there is nothing to release. */
  function Released(c: Camera): Camera {
    if c.VideoCapture? then VideoCapture(false) else NoCamera
  }

  /** What a button runs when it is clicked. */
  datatype Command = StartSession | CaptureSnapshot | FinishSession

  const ReportsDir: string := "reports"
  const ReportFile: string := "report.pdf"
  const DefaultExamTitle: string := "Ultrasound Examination"

  /** The folder of a session: reports/<name>_<id>_<timestamp>. */
  function SessionFolder(name: string, id: string, timestamp: string): string {
    Join(ReportsDir, name + "_" + id + "_" + timestamp)
  }

  /** snapshot_<n>_<timestamp>.jpg inside the session folder. */
  function SnapshotPath(folder: string, n: nat, timestamp: string): string {
    Join(folder, "snapshot_" + NatToString(n) + "_" + timestamp + ".jpg")
  }

  /** A decimal rendering holds no underscore. */
  lemma NoUnderscore(n: nat)
    ensures '_' !in NatToString(n)
  {
    var a := NatToString(n);
    assert forall k :: 0 <= k < |a| ==> IsDigit(a[k]);
  }

  /**
   * snapshot_<a>_<t>.jpg with an a free of underscores determines a and
   * t.
   */
  lemma SnapshotNameParts(a: string, ta: string, b: string, tb: string)
    requires '_' !in a && '_' !in b
    requires "snapshot_" + a + "_" + ta + ".jpg" == "snapshot_" + b + "_" + tb + ".jpg"
    ensures a == b && ta == tb
  {
    DropCommonSuffix("snapshot_" + a + "_" + ta, "snapshot_" + b + "_" + tb, ".jpg");
    assert "snapshot_" + a + "_" + ta == "snapshot_" + (a + ['_'] + ta);
    assert "snapshot_" + b + "_" + tb == "snapshot_" + (b + ['_'] + tb);
    DropCommonPrefix("snapshot_", a + ['_'] + ta, b + ['_'] + tb);
    SplitAtFirst(a, ta, b, tb, '_');
  }

  /**
   * A snapshot file name determines its sequence number and its
   * timestamp.
   */
  lemma SnapshotNameInjective(i: nat, j: nat, ti: string, tj: string)
    requires "snapshot_" + NatToString(i) + "_" + ti + ".jpg" == "snapshot_" + NatToString(j) + "_" + tj + ".jpg"
    ensures i == j && ti == tj
  {
    NoUnderscore(i);
    NoUnderscore(j);
    SnapshotNameParts(NatToString(i), ti, NatToString(j), tj);
    NatToStringInjective(i, j);
  }

  /**
   * A snapshot path determines its sequence number and its timestamp, so
   * two captures of one session never share a file.
   */
  lemma SnapshotPathInjective(folder: string, i: nat, j: nat, ti: string, tj: string)
    requires SnapshotPath(folder, i, ti) == SnapshotPath(folder, j, tj)
    ensures i == j && ti == tj
  {
    DropCommonPrefix(folder + "/",
      "snapshot_" + NatToString(i) + "_" + ti + ".jpg",
      "snapshot_" + NatToString(j) + "_" + tj + ".jpg");
    SnapshotNameInjective(i, j, ti, tj);
  }

  /** The paths of the captures of a session, numbered from 1 in order. */
  function Captures(folder: string, stamps: seq<string>): seq<string> {
    seq(|stamps|, k requires 0 <= k < |stamps| => SnapshotPath(folder, k + 1, stamps[k]))
  }

  /** No two captures of a session share a path. */
  lemma CapturesDistinct(folder: string, stamps: seq<string>, i: nat, j: nat)
    requires i < j < |stamps|
    ensures Captures(folder, stamps)[i] != Captures(folder, stamps)[j]
  {
    if Captures(folder, stamps)[i] == Captures(folder, stamps)[j] {
      SnapshotPathInjective(folder, i + 1, j + 1, stamps[i], stamps[j]);
    }
  }

  /** Every capture lies inside the session folder. */
  lemma CapturesInFolder(folder: string, stamps: seq<string>, k: nat)
    requires k < |stamps|
    ensures var path := Captures(folder, stamps)[k];
      |path| > |folder| && path[..|folder| + 1] == folder + "/"
  {
    var name := "snapshot_" + NatToString(k + 1) + "_" + stamps[k] + ".jpg";
    assert Captures(folder, stamps)[k] == folder + "/" + name;
  }

  /** One more capture adds one path, numbered one past the others. */
  lemma CapturesSnoc(folder: string, stamps: seq<string>, t: string)
    ensures Captures(folder, stamps + [t]) == Captures(folder, stamps) + [SnapshotPath(folder, |stamps| + 1, t)]
  {
    var s := stamps + [t];
    assert forall k :: 0 <= k < |stamps| ==> s[k] == stamps[k];
  }

  function ExamTitleOrDefault(title: string): string {
    if title == "" then DefaultExamTitle else title
  }

  /** A button of the control panel: a command and a disabled flag. */
  class ModernButton {
    const command: Command
    var isDisabled: bool

    constructor (command: Command)
      ensures this.command == command && !isDisabled
    {
      this.command := command;
      isDisabled := false;
    }

    method SetDisabled(disabled: bool)
      modifies this`isDisabled
      ensures isDisabled == disabled
    {
      isDisabled := disabled;
    }

    /** The command a click runs: none at all while the button is disabled. */
    method OnClick() returns (fired: Option<Command>)
      ensures fired.None? <==> isDisabled
      ensures fired.Some? ==> fired.value == command
    {
      if !isDisabled {
        fired := Some(command);
      } else {
        fired := None;
      }
    }
  }

  datatype StartOutcome = ValidationError | CameraError | Started
  datatype FinishOutcome = Declined | MissingFolder | Finished(doc: Report.Document, built: bool)

  /** What the outside world answers while a command runs. */
  datatype Inputs = Inputs(
    cameraOpens: bool,
    frame: Option<Frame>,
    timestamp: string,
    confirm: bool,
    disk: Report.Disk,
    date: string,
    buildSucceeds: bool)

  /**
   * The capture station. Its entry fields hold what the user typed;
   * createdFolders records the folders the station has made on disk.
   */
  class UltraCapturePro {
    var camera: Camera
    var sessionActive: bool
    var capturedImages: seq<string>
    var sessionFolder: Option<string>
    var currentFrame: Option<Frame>
    var patientName: string
    var patientId: string
    var examTitle: string
    var createdFolders: set<string>
    var closed: bool
    /** The timestamps of the captures in capturedImages. */
    ghost var captureStamps: seq<string>
    const startBtn: ModernButton
    const captureBtn: ModernButton
    const finishBtn: ModernButton

    /**
     * Start is enabled exactly when no session is active, Capture and
     * Finish exactly when one is; an active session has an opened camera
     * and a folder on disk; the captured paths are the session's snapshots
     * numbered 1, 2, ... in capture order.
     */
    ghost predicate Valid()
      reads this, startBtn, captureBtn, finishBtn
    {
      && startBtn.command == StartSession
      && captureBtn.command == CaptureSnapshot
      && finishBtn.command == FinishSession
      && startBtn.isDisabled == sessionActive
      && captureBtn.isDisabled == !sessionActive
      && finishBtn.isDisabled == !sessionActive
      && (sessionActive ==> camera.VideoCapture? && sessionFolder.Some? && sessionFolder.value in createdFolders)
      && (currentFrame.Some? ==> sessionFolder.Some?)
      && (sessionFolder.None? ==> capturedImages == [] && captureStamps == [])
      && (sessionFolder.Some? ==> capturedImages == Captures(sessionFolder.value, captureStamps))
    }

    constructor ()
      ensures Valid()
      ensures camera == NoCamera && !sessionActive && !closed
      ensures capturedImages == [] && sessionFolder == None && currentFrame == None
      ensures patientName == "" && patientId == "" && examTitle == ""
      ensures createdFolders == {}
      ensures !startBtn.isDisabled && captureBtn.isDisabled && finishBtn.isDisabled
    {
      camera := NoCamera;
      sessionActive := false;
      capturedImages := [];
      sessionFolder := None;
      currentFrame := None;
      patientName, patientId, examTitle := "", "", "";
      createdFolders := {};
      closed := false;
      captureStamps := [];
      var start := new ModernButton(StartSession);
      var capture := new ModernButton(CaptureSnapshot);
      var finish := new ModernButton(FinishSession);
      startBtn, captureBtn, finishBtn := start, capture, finish;
      new;
      capture.SetDisabled(true);
      finish.SetDisabled(true);
    }

    /** The user types into the patient entry fields. */
    method EditEntries(name: string, id: string, title: string)
      requires Valid()
      modifies this`patientName, this`patientId, this`examTitle
      ensures Valid()
      ensures patientName == name && patientId == id && examTitle == title
    {
      patientName, patientId, examTitle := name, id, title;
    }

    /**
     * start_session: refuses an empty name or ID; otherwise opens the
     * camera, and when it opens creates the session folder, activates the
     * session with an empty capture list, flips the buttons and polls the
     * first frame.
     */
    method Start(cameraOpens: bool, timestamp: string, firstFrame: Option<Frame>)
      returns (outcome: StartOutcome)
      requires Valid()
      modifies this, startBtn`isDisabled, captureBtn`isDisabled, finishBtn`isDisabled
      ensures Valid()
      ensures outcome == ValidationError <==> old(patientName) == "" || old(patientId) == ""
      ensures outcome == CameraError <==> old(patientName) != "" && old(patientId) != "" && !cameraOpens
      ensures outcome != Started ==>
        && sessionActive == old(sessionActive)
        && capturedImages == old(capturedImages)
        && sessionFolder == old(sessionFolder)
        && currentFrame == old(currentFrame)
        && createdFolders == old(createdFolders)
        && unchanged(startBtn, captureBtn, finishBtn)
      ensures outcome == ValidationError ==> camera == old(camera)
      ensures outcome == CameraError ==> camera == VideoCapture(false)
      ensures outcome == Started ==>
        var folder := SessionFolder(old(patientName), old(patientId), timestamp);
        && camera == VideoCapture(true)
        && sessionActive
        && sessionFolder == Some(folder)
        && createdFolders == old(createdFolders) + {folder}
        && capturedImages == []
        && startBtn.isDisabled && !captureBtn.isDisabled && !finishBtn.isDisabled
        && currentFrame == (if firstFrame.Some? then firstFrame else old(currentFrame))
      ensures patientName == old(patientName) && patientId == old(patientId)
      ensures examTitle == old(examTitle) && closed == old(closed)
    {
      if patientName == "" || patientId == "" {
        return ValidationError;
      }
      camera := VideoCapture(cameraOpens);
      if !cameraOpens {
        return CameraError;
      }
      Activate(SessionFolder(patientName, patientId, timestamp));
      PollFrame(firstFrame);
      outcome := Started;
    }

    /**
     * The successful part of start_session: the folder is created and
     * becomes the session folder, the session is active with no captures,
     * Start is disabled and Capture and Finish are enabled.
     */
    method Activate(folder: string)
      requires Valid() && camera.VideoCapture?
      modifies this`sessionFolder, this`createdFolders, this`sessionActive, this`capturedImages, this`captureStamps
      modifies startBtn`isDisabled, captureBtn`isDisabled, finishBtn`isDisabled
      ensures Valid()
      ensures sessionActive && sessionFolder == Some(folder) && capturedImages == []
      ensures createdFolders == old(createdFolders) + {folder}
      ensures startBtn.isDisabled && !captureBtn.isDisabled && !finishBtn.isDisabled
    {
      sessionFolder := Some(folder);
      createdFolders := createdFolders + {folder};
      sessionActive := true;
      capturedImages := [];
      captureStamps := [];
      startBtn.SetDisabled(true);
      captureBtn.SetDisabled(false);
      finishBtn.SetDisabled(false);
    }

    /**
     * update_video_feed: while the session is active and the camera is
     * open, a successfully read frame becomes the current frame.
     */
    method PollFrame(read: Option<Frame>)
      requires Valid()
      modifies this`currentFrame
      ensures Valid()
      ensures currentFrame ==
        if sessionActive && camera.VideoCapture? && camera.isOpened && read.Some? then read
        else old(currentFrame)
    {
      if sessionActive && camera.VideoCapture? && camera.isOpened && read.Some? {
        currentFrame := read;
      }
    }

    /**
     * capture_snapshot: with a current frame, appends exactly one path,
     * snapshot_<k+1>_<timestamp>.jpg in the session folder where k is the
     * number of earlier captures; the new path is none of the earlier ones.
     * Without a frame nothing changes.
     */
    method Capture(timestamp: string) returns (saved: Option<string>)
      requires Valid()
      modifies this`capturedImages, this`captureStamps
      ensures Valid()
      ensures saved.None? <==> currentFrame.None?
      ensures saved.None? ==> capturedImages == old(capturedImages)
      ensures saved.Some? ==>
        && saved.value == SnapshotPath(sessionFolder.value, |old(capturedImages)| + 1, timestamp)
        && saved.value !in old(capturedImages)
        && capturedImages == old(capturedImages) + [saved.value]
    {
      if currentFrame.None? {
        return None;
      }
      var folder := sessionFolder.value;
      var path := SnapshotPath(folder, |capturedImages| + 1, timestamp);
      forall k | 0 <= k < |capturedImages|
        ensures capturedImages[k] != path
      {
        if capturedImages[k] == path {
          SnapshotPathInjective(folder, k + 1, |capturedImages| + 1, captureStamps[k], timestamp);
        }
      }
      CapturesSnoc(folder, captureStamps, timestamp);
      capturedImages := capturedImages + [path];
      captureStamps := captureStamps + [timestamp];
      saved := Some(path);
    }

    /**
     * finish_session: with no captures it asks first and a "no" changes
     * nothing; otherwise the session ends, the camera is released, the
     * report for the captured paths is built into report.pdf of the
     * session folder (the exam title defaulting when empty) and the
     * buttons are reset whether or not the build succeeded. The capture
     * list itself is kept.
     */
    method Finish(confirm: bool, disk: Report.Disk, date: string, buildSucceeds: bool)
      returns (outcome: FinishOutcome)
      requires Valid()
      modifies this`sessionActive, this`camera, startBtn`isDisabled, captureBtn`isDisabled, finishBtn`isDisabled
      ensures Valid()
      ensures outcome == Declined <==> old(capturedImages) == [] && !confirm
      ensures outcome == MissingFolder <==> outcome != Declined && sessionFolder.None?
      ensures outcome == Declined ==>
        && sessionActive == old(sessionActive) && camera == old(camera)
        && unchanged(startBtn, captureBtn, finishBtn)
      ensures outcome != Declined ==> !sessionActive && camera == Released(old(camera))
      ensures outcome.Finished? ==>
        && !startBtn.isDisabled && captureBtn.isDisabled && finishBtn.isDisabled
        && outcome.built == buildSucceeds
        && outcome.doc.path == Join(sessionFolder.value, ReportFile)
        && outcome.doc.story == Report.Story(
             Report.PatientInfo(patientName, patientId, ExamTitleOrDefault(examTitle), date),
             capturedImages, disk)
    {
      if capturedImages == [] && !confirm {
        return Declined;
      }
      sessionActive := false;
      camera := Released(camera);
      if sessionFolder.None? {
        return MissingFolder;
      }
      var info := Report.PatientInfo(patientName, patientId, ExamTitleOrDefault(examTitle), date);
      var doc := Report.GenerateReport(Join(sessionFolder.value, ReportFile), info, capturedImages, disk);
      startBtn.SetDisabled(false);
      captureBtn.SetDisabled(true);
      finishBtn.SetDisabled(true);
      outcome := Finished(doc, buildSucceeds);
    }

    /**
     * on_closing: while a session is active it asks first and a "no"
     * changes nothing; otherwise the camera is released and the window
     * closes.
     */
    method OnClosing(confirm: bool) returns (exited: bool)
      requires Valid()
      modifies this`camera, this`closed
      ensures Valid()
      ensures exited <==> !sessionActive || confirm
      ensures !exited ==> camera == old(camera) && closed == old(closed)
      ensures exited ==> camera == Released(old(camera)) && closed
    {
      if sessionActive && !confirm {
        return false;
      }
      camera := Released(camera);
      closed := true;
      exited := true;
    }

    /**
     * A click on one of the three buttons of the open window: it runs the
     * button's command exactly when the button is enabled, that is, Start
     * only while no session is active and Capture and Finish only while one
     * is. Once the window is destroyed no click reaches the station.
     */
    method Click(button: ModernButton, inputs: Inputs) returns (fired: Option<Command>)
      requires Valid() && !closed
      requires button == startBtn || button == captureBtn || button == finishBtn
      modifies this, startBtn`isDisabled, captureBtn`isDisabled, finishBtn`isDisabled
      ensures Valid()
      ensures fired.Some? <==> if button == startBtn then !old(sessionActive) else old(sessionActive)
      ensures fired.Some? ==> fired.value == button.command
      ensures fired.None? ==> unchanged(this) && unchanged(startBtn, captureBtn, finishBtn)
      ensures patientName == old(patientName) && patientId == old(patientId)
      ensures examTitle == old(examTitle) && closed == old(closed)
      ensures fired == Some(StartSession) ==>
        && (sessionActive <==> old(patientName) != "" && old(patientId) != "" && inputs.cameraOpens)
        && camera == if old(patientName) == "" || old(patientId) == "" then old(camera)
                     else VideoCapture(inputs.cameraOpens)
      ensures fired == Some(StartSession) && !sessionActive ==>
        && capturedImages == old(capturedImages)
        && sessionFolder == old(sessionFolder)
        && currentFrame == old(currentFrame)
        && createdFolders == old(createdFolders)
        && unchanged(startBtn, captureBtn, finishBtn)
      ensures fired == Some(StartSession) && sessionActive ==>
        var folder := SessionFolder(old(patientName), old(patientId), inputs.timestamp);
        && sessionFolder == Some(folder)
        && createdFolders == old(createdFolders) + {folder}
        && capturedImages == []
        && currentFrame == (if inputs.frame.Some? then inputs.frame else old(currentFrame))
        && startBtn.isDisabled && !captureBtn.isDisabled && !finishBtn.isDisabled
      ensures fired == Some(CaptureSnapshot) ==>
        && sessionActive == old(sessionActive)
        && camera == old(camera)
        && sessionFolder == old(sessionFolder)
        && currentFrame == old(currentFrame)
        && createdFolders == old(createdFolders)
        && unchanged(startBtn, captureBtn, finishBtn)
        && capturedImages == old(capturedImages) +
             if old(currentFrame).Some?
             then [SnapshotPath(sessionFolder.value, |old(capturedImages)| + 1, inputs.timestamp)]
             else []
      ensures fired == Some(FinishSession) ==>
        && (sessionActive <==> old(capturedImages) == [] && !inputs.confirm)
        && camera == (if sessionActive then old(camera) else Released(old(camera)))
        && capturedImages == old(capturedImages)
        && sessionFolder == old(sessionFolder)
        && currentFrame == old(currentFrame)
        && createdFolders == old(createdFolders)
        && (sessionActive ==> unchanged(startBtn, captureBtn, finishBtn))
        && (!sessionActive ==> !startBtn.isDisabled && captureBtn.isDisabled && finishBtn.isDisabled)
    {
      fired := button.OnClick();
      if fired.None? {
        return;
      }
      match fired.value
      case StartSession =>
        var _ := Start(inputs.cameraOpens, inputs.timestamp, inputs.frame);
      case CaptureSnapshot =>
        var _ := Capture(inputs.timestamp);
      case FinishSession =>
        var _ := Finish(inputs.confirm, inputs.disk, inputs.date, inputs.buildSucceeds);
    }
  }
}
