/** The bulk-import page: the file-name check, the simulated upload whose
    progress grows on every timer tick until it reaches 100, and the fixed
    summary shown once the upload is complete. */
module ImportStudents {
  import opened Options
  import opened Strings

  /** `name.endsWith('.xlsx') || name.endsWith('.csv')`, letter case included. */
  predicate IsAcceptedFileName(name: string)
  {
    EndsWith(name, ".xlsx") || EndsWith(name, ".csv")
  }

  /** A name is accepted exactly when it is some stem followed by ".xlsx" or
      by ".csv". */
  lemma AcceptedIffExtension(name: string)
    ensures IsAcceptedFileName(name) <==>
            exists stem: string :: name == stem + ".xlsx" || name == stem + ".csv"
  {
    EndsWithIffConcat(name, ".xlsx");
    EndsWithIffConcat(name, ".csv");
  }

  /** The check is case-sensitive and looks at the whole extension. */
  lemma ExtensionExamples()
    ensures IsAcceptedFileName("students.xlsx")
    ensures IsAcceptedFileName("students.csv")
    ensures !IsAcceptedFileName("students.CSV")
    ensures !IsAcceptedFileName("students.xls")
  {
    assert "students.CSV"[8..] == ".CSV";
    assert "students.CSV"[7..] == "s.CSV";
    assert "students.xls"[7..] == "s.xls";
    assert "students.xls"[8..] == ".xls";
  }

  /** The summary of an import. */
  datatype UploadStats = UploadStats(total: int, successful: int, failed: int, errors: seq<string>)

  /** Every record either succeeded or failed, and each failure has a message. */
  predicate Consistent(stats: UploadStats)
  {
    stats.successful + stats.failed == stats.total && |stats.errors| == stats.failed
  }

  const InitialStats := UploadStats(0, 0, 0, [])

  /** The summary reported for every upload, whatever the file holds. */
  const ReportedStats := UploadStats(125, 120, 5, [
    "Row 15: Missing required field \"Student ID\"",
    "Row 32: Invalid date format in \"Date of Birth\"",
    "Row 67: Duplicate Student ID \"ST2024001\"",
    "Row 89: Invalid class \"Class 13\"",
    "Row 103: Missing parent contact information"
  ])

  /** The notifications the page raises. */
  datatype Notice = InvalidFileFormat | UploadComplete | TemplateDownloaded

  /** `Math.random() * 15` lies in [0, 15). */
  const StepBound: real := 15.0
  const Done: real := 100.0

  /** The progress after one tick: a finished bar is pinned at 100, any other
      grows by `step`. It can overshoot 100 by less than one step before the
      next tick pins it. */
  function NextProgress(progress: real, step: real): (r: real)
    requires 0.0 <= step < StepBound
    ensures progress >= Done ==> r == Done
    ensures progress < Done ==> progress <= r < progress + StepBound
    ensures 0.0 <= progress < Done + StepBound ==> 0.0 <= r < Done + StepBound
  {
    if progress >= Done then Done else progress + step
  }

  /** From 99, a step of 13.5 shows 112.5 before the bar is pinned to 100. */
  lemma ProgressOvershoots()
    ensures NextProgress(99.0, 13.5) == 112.5
    ensures NextProgress(NextProgress(99.0, 13.5), 0.0) == Done
  {
  }

  /** The page's state. The timer started by an accepted file is running
      exactly while `isUploading` holds. */
  class ImportPage {
    var uploadProgress: real
    var isUploading: bool
    var uploadComplete: bool
    var uploadStats: UploadStats
    var notices: seq<Notice>

    ghost predicate Valid()
      reads this
    {
      && 0.0 <= uploadProgress < Done + StepBound
      && (uploadComplete ==> !isUploading && uploadProgress == Done)
      && (!isUploading && !uploadComplete ==> uploadProgress == 0.0)
      && Consistent(uploadStats)
    }

    constructor ()
      ensures uploadProgress == 0.0 && !isUploading && !uploadComplete
      ensures uploadStats == InitialStats && notices == []
      ensures Valid()
    {
      uploadProgress := 0.0;
      isUploading := false;
      uploadComplete := false;
      uploadStats := InitialStats;
      notices := [];
    }

    /** "Choose File" is disabled while uploading. */
    function ChooseFileEnabled(): bool
      reads this
    {
      !isUploading
    }

    /** A file was chosen (`file` is the name of the first one, if any). No
        file changes nothing; a rejected name only raises a notice; an
        accepted one starts the upload and its timer. The file picker is only
        reachable through the "Choose File" button, so it must be enabled. */
    method HandleFileUpload(file: Option<string>)
      requires ChooseFileEnabled()
      modifies this
      ensures uploadStats == old(uploadStats)
      ensures file.None? ==>
        && uploadProgress == old(uploadProgress) && isUploading == old(isUploading)
        && uploadComplete == old(uploadComplete) && notices == old(notices)
      ensures file.Some? && !IsAcceptedFileName(file.value) ==>
        && uploadProgress == old(uploadProgress) && isUploading == old(isUploading)
        && uploadComplete == old(uploadComplete) && notices == old(notices) + [InvalidFileFormat]
      ensures file.Some? && IsAcceptedFileName(file.value) ==>
        && isUploading && uploadProgress == 0.0 && !uploadComplete && notices == old(notices)
      ensures old(Valid()) ==> Valid()
    {
      if file.None? {
        return;
      }
      if !IsAcceptedFileName(file.value) {
        notices := notices + [InvalidFileFormat];
        return;
      }
      isUploading := true;
      uploadProgress := 0.0;
      uploadComplete := false;
    }

    /** One firing of the 200 ms timer; `step` stands for `Math.random() * 15`.
        Below 100 the progress grows by `step`; at 100 or more it is pinned at
        100, the upload completes, the summary is filled in and the timer
        stops. */
    method Tick(step: real)
      requires 0.0 <= step < StepBound
      modifies this
      ensures !old(isUploading) ==>
        && uploadProgress == old(uploadProgress) && !isUploading
        && uploadComplete == old(uploadComplete) && uploadStats == old(uploadStats)
        && notices == old(notices)
      ensures old(isUploading) && old(uploadProgress) < Done ==>
        && uploadProgress == old(uploadProgress) + step && isUploading
        && uploadComplete == old(uploadComplete) && uploadStats == old(uploadStats) && notices == old(notices)
      ensures old(isUploading) && old(uploadProgress) >= Done ==>
        && uploadProgress == Done && !isUploading && uploadComplete
        && uploadStats == ReportedStats && notices == old(notices) + [UploadComplete]
      ensures old(Valid()) ==> Valid()
    {
      if !isUploading {
        return;
      }
      if uploadProgress >= Done {
        isUploading := false;
        uploadComplete := true;
        uploadStats := ReportedStats;
        notices := notices + [UploadComplete];
      }
      uploadProgress := NextProgress(uploadProgress, step);
    }

    /** "Download Excel Template" only raises a notice. */
    method DownloadTemplate()
      modifies this
      ensures notices == old(notices) + [TemplateDownloaded]
      ensures uploadProgress == old(uploadProgress) && isUploading == old(isUploading)
      ensures uploadComplete == old(uploadComplete) && uploadStats == old(uploadStats)
    {
      notices := notices + [TemplateDownloaded];
    }
  }

  /** Both summaries the page can show are consistent. */
  lemma ReportedStatsConsistent()
    ensures Consistent(InitialStats) && Consistent(ReportedStats)
  {
  }
}
