# UltraCapture Pro: session controller and report story

UltraCapture Pro is a desktop station that captures ultrasound frames from a
video source during a patient session and, when the session ends, writes a
PDF report of the captured images. This project models its two sequential
cores and proves their properties in Dafny:

- **The session controller** (`app.py`, module `App`): the class
  `UltraCapturePro` with its session state (camera, active flag, captured
  paths, session folder, current frame, the patient entry fields) and the
  three `ModernButton`s whose disabled flags gate the commands. Start,
  capture, finish, closing and the frame poll are methods that update the
  fields in place. The camera-open result, the frames read, the
  timestamps, the yes/no dialog answers, the files on disk and whether the
  report build raised are inputs of the methods. The folders the station
  creates are recorded in the field `createdFolders`.
- **The report story builder** (`pdf_generator.py`, module `Report`):
  `generate_report` builds the sequence of reportlab flowables (title,
  patient table, numbered captions and fitted images with page breaks, the
  empty-list placeholder, the clinical-notes page with 15 ruled lines and
  the signature row). `GenerateReport` builds it step by step as the source
  does. It is proved equal to the specification function `Story`, and the
  lemmas state what the story contains. The image aspect-fit is the pure
  function `AspectFit` over exact reals.
- Module `Strings` holds the decimal rendering of numbers used in captions
  and snapshot names (proved injective), repeated characters and path
  joining.

The class invariant `UltraCapturePro.Valid` states the controller's
design. Start is enabled exactly when no session is active. Capture and
Finish are enabled exactly when one is. An active session has a camera and
a created folder. The captured paths are `snapshot_1_…`, `snapshot_2_…`, …
inside the session folder, in capture order. Every method keeps it.

## Behaviour of the code worth knowing

- finishing a session does not clear the list of captured paths; only the
  on-screen list is emptied. The list is reset by the next successful
  start.
- the page break after an image depends on its position in the path list,
  not on whether a later file exists. So when the last path is missing and
  an earlier one exists, the image section ends with a page break and the
  notes page break follows it (`Report.TrailingMissingDoublesBreak`).
- a start whose first frame read fails keeps the previous current frame,
  possibly one from an earlier session.

## Model

| member | source | states |
|---|---|---|
| Strings.NatToString | pdf_generator.py:88 | the decimal rendering of a number is a non-empty string of digits, one digit long exactly for numbers below ten |
| Strings.NatToStringValue | pdf_generator.py:88 | the rendering reads back as the number it renders, and has no leading zero |
| Strings.NatToStringInjective | pdf_generator.py:88 | different numbers have different decimal renderings, as a consequence of the read-back |
| Strings.Repeat | pdf_generator.py:126 | a character repeated n times has length n and holds only that character |
| Report.AspectFit | pdf_generator.py:93-108 | for positive dimensions the drawn size is positive, at most 6.5 in by 4.5 in, keeps the height/width ratio, never enlarges, keeps an image that already fits, and makes the width exactly 6.5 in when only the width is too large |
| Report.AspectFitIsUniformScale | pdf_generator.py:96-106 | the drawn size is the original scaled by min(1, 6.5 in / width, 4.5 in / height) |
| Report.AspectFitIsLargest | pdf_generator.py:99-106 | no size with the same ratio that fits the bounds and does not enlarge is wider than the drawn size |
| Report.GenerateReport | pdf_generator.py:45-144 | the document goes to the given path on a letter page with 0.75 in margins, and its story is exactly the specification story for the patient data, paths and files on disk |
| Report.AppendImages | pdf_generator.py:85-117 | the loop over the paths appends exactly the image section: the placeholder for an empty list, otherwise the entries of the paths in list order |
| Report.AppendNotes | pdf_generator.py:119-142 | the notes loop appends the page break, the notes heading, 15 spacer and ruled-line pairs, the spacer and the signature row |
| Report.RuledLinesSnoc | pdf_generator.py:124-126 | one more pass of the notes loop adds one spacer and one ruled line at the end |
| Report.CaptionInjective | pdf_generator.py:88 | captions of different positions differ |
| Report.EntriesCounts | pdf_generator.py:86-114 | the entries of the first k paths hold one image per existing file among them, no ruled line and no placeholder; before the last position they hold one page break per existing file |
| Report.EntriesCaptions | pdf_generator.py:86-88 | caption j is among the first k entries iff 1 <= j <= k and the j-th path exists |
| Report.EntriesEnd | pdf_generator.py:113-114 | before the last position the entries are empty iff no file exists yet, and otherwise end with a page break |
| Report.EntriesAt | pdf_generator.py:87-110 | the entry of an existing path starts right after the entries before it with its caption, a spacer and its fitted image |
| Report.NotesPageCounts | pdf_generator.py:119-142 | the notes page starts with a page break, ends with the signature row and holds n ruled lines, one page break, no image and no caption |
| Report.SectionCounts | pdf_generator.py:85-117 | the image section holds one image per existing file, one placeholder iff the list is empty, and one page break per existing file before the last position |
| Report.StoryCounts | pdf_generator.py:85-126 | the story holds one image per existing file, one placeholder iff the list is empty, exactly 15 ruled lines, and 1 + (existing files before the last position) page breaks |
| Report.StoryCaptions | pdf_generator.py:86-88 | caption j is in the story iff 1 <= j <= number of paths and the j-th path exists, so numbering follows the list and can have gaps |
| Report.StoryCaptionThenImage | pdf_generator.py:88-110 | an existing path at position i contributes, in this order, caption i+1, a spacer and its image drawn at the fitted size |
| Report.StoryImagesFit | pdf_generator.py:91-110 | every image of the story is an existing file drawn at its fitted size, within 6.5 in by 4.5 in |
| Report.StoryOpening | pdf_generator.py:57-83 | the story opens with the title, the patient table with rows Name, ID, Exam Title, Examination Date, and the "CAPTURED IMAGES" heading |
| Report.StoryClosing | pdf_generator.py:119-142 | the story ends with the notes page: a page break first and the four-cell signature row (label, 40 underscores, "Date:", 20 underscores) last |
| Report.EmptyListPlaceholder | pdf_generator.py:115-117 | an empty path list gives exactly one placeholder, no image and no caption |
| Report.AllMissingNoPlaceholder | pdf_generator.py:85-117 | a non-empty list whose files are all missing gives an empty image section: no placeholder and no image |
| Report.SectionEnd | pdf_generator.py:113-114 | a non-empty image section ends with a page break iff the last path is missing and some earlier file exists |
| Report.TrailingMissingDoublesBreak | pdf_generator.py:113-119 | the notes page break always follows the image section, and it is preceded by another page break iff the last path is missing while an earlier file exists |
| App.SnapshotNameParts | app.py:251 | two names snapshot_a_t.jpg whose number parts a hold no underscore are equal only when both their number parts and their timestamps are |
| App.SnapshotNameInjective | app.py:251 | a snapshot file name determines its sequence number and its timestamp |
| App.SnapshotPathInjective | app.py:250-252 | a snapshot path in a folder determines its sequence number and its timestamp |
| App.CapturesDistinct | app.py:250-256 | no two captures of a session share a path |
| App.CapturesInFolder | app.py:252 | every capture lies inside the session folder |
| App.CapturesSnoc | app.py:251-256 | one more capture adds one path at the end, numbered one past the earlier captures |
| App.ModernButton.constructor | app.py:12-20 | a new button holds its command and is enabled |
| App.ModernButton.SetDisabled | app.py:54-56 | the disabled flag becomes the given value |
| App.ModernButton.OnClick | app.py:50-52 | a click yields no command iff the button is disabled, and otherwise yields the button's own command |
| App.UltraCapturePro.constructor | app.py:70-78 | the station starts with no camera, no session, no captures, no folder, no frame and empty entries; Start is enabled and Capture and Finish are disabled |
| App.UltraCapturePro.EditEntries | app.py:76-78 | the entry fields take the typed values and nothing else changes |
| App.UltraCapturePro.Start | app.py:203-229 | an empty name or ID refuses the start and changes nothing; a camera that does not open changes only the camera field; otherwise the folder reports/name_id_timestamp is created and becomes the session folder, the session is active with no captures, Start is disabled, Capture and Finish are enabled, and the first frame read, if any, becomes the current frame |
| App.UltraCapturePro.Activate | app.py:213-224 | the successful part of a start: folder created and set, session active, no captures, buttons flipped |
| App.UltraCapturePro.PollFrame | app.py:231-246 | a frame read while the session is active and the camera open becomes the current frame; otherwise nothing changes |
| App.UltraCapturePro.Capture | app.py:248-262 | without a current frame nothing changes; with one exactly one path is appended, snapshot_(k+1)_timestamp.jpg in the session folder where k is the number of earlier captures, and it differs from every earlier capture |
| App.UltraCapturePro.Finish | app.py:264-311 | with no captures a "no" answer changes nothing; otherwise the session ends, the camera is released, the captured list is kept, the report story is built from it into report.pdf of the session folder with the exam title defaulting to "Ultrasound Examination", and the buttons are reset whether or not the build succeeded; with no session folder the run stops after releasing the camera |
| App.UltraCapturePro.OnClosing | app.py:313-323 | while a session is active a "no" answer changes nothing; otherwise the camera is released and the window closes |
| App.UltraCapturePro.Click | app.py:50-52 | in the open window a click fires exactly when its button is enabled (Start only while no session is active, Capture and Finish only while one is) and otherwise changes nothing; no click touches the entry fields or the closed flag; a fired click runs the button's own command and changes only what that command changes: a start opens the camera once both entries are non-empty and activates a session in the newly created folder name_id_timestamp, with no captures, the first frame and flipped buttons, iff the camera opens, and otherwise keeps the session state and buttons; a capture appends the next snapshot path iff there is a current frame and keeps everything else; a finish keeps the captured list, folder and frame, and leaves the session active with camera and buttons untouched only on a "no" with no captures, otherwise releasing the camera and resetting the buttons |

## Left out

- The tkinter user interface: window layout, styles, hover drawing, labels, the on-screen capture list and the message boxes. Dialog answers are boolean inputs.
- OpenCV: opening the device, reading, colour conversion, resizing and `imwrite`. Whether the camera opens and which frame is read are inputs. Frames are opaque bytes.
- App.UltraCapturePro.Capture: does not model the JPEG file that `imwrite` writes, nor whether that write succeeded. The files the report sees are the `disk` input of `Finish`.
- The 30 ms re-arming of the frame poll by `root.after`. `PollFrame` is one poll, and the caller decides when it runs.
- The clock. Timestamps and the report date are opaque strings, and strftime formatting is not modelled.
- App.UltraCapturePro.Start: the folder is always created. A failure of `mkdir` (which would raise after the session folder was already reassigned) is not modelled.
- App.UltraCapturePro.Finish: modelled as one atomic step. In the program, `self.root.update()` (app.py:289) handles queued events while Capture and Finish are still enabled, and they are disabled only afterwards (app.py:305-307). A queued Capture click can therefore append a snapshot after the session became inactive, and that snapshot goes into the report, since the list is passed by reference (app.py:291-295). This interleaving is not modelled.
- App.UltraCapturePro.Click: requires an open window. After `root.destroy()` (app.py:323) no event reaches the station, so the model has no clicks after closing.
- Path normalisation by `pathlib`. Paths are joined with "/" as plain strings.
- Report.GenerateReport: the story and document template are built, but reportlab's rendering (`doc.build`, fonts, colours, table styles, how flowables flow across pages) is not modelled. Whether the build raises is the `buildSucceeds` input of `Finish`.
- Report.AspectFit: dimensions are exact reals. IEEE floating-point rounding of the ratio and the divisions is idealised away.
- Pixel dimensions of a file on disk are positive integers. Reading an image file that is not a valid image is not modelled.
