/** The upload page's logic: accepting a chosen file (size ceiling, then a
    `.csv` extension), the simulated upload whose interval callback advances
    a progress counter until it completes and records the file, deleting a
    recorded file by position, the capitalised type label, and the footer
    message chosen by role. One interval callback is one `Tick`. */
module Upload {
  import opened Wrappers
  import Text
  import Auth

  /** 5 MB: the largest accepted file, in bytes. */
  const MaxFileBytes: nat := 5 * 1024 * 1024

  const NoticeText := "Please log in to upload data files."
  const FullAccessText := "You have full access to upload and manage all data files."
  const FarmerText := "Farmers can upload their own field data for analysis."

  /** A file as the browser reports it: its name and its size in bytes. */
  datatype File = File(name: string, size: nat)

  datatype FileError = TooLarge | NotCsv

  /** What a running interval captured when the upload started: the file
      selected and the tab active at that moment. */
  datatype Job = Job(file: File, tab: string)

  /** An entry of the uploaded-files list; `date` is the clock reading
      taken when the upload completed. */
  datatype UploadedFile = UploadedFile(name: string, kind: string, date: int)

  /** The page's state. `job` is the running interval, if any. */
  datatype UploadState = UploadState(
    activeTab: string,
    selected: Option<File>,
    progress: int,
    uploading: bool,
    job: Option<Job>,
    files: seq<UploadedFile>)

  /** The page as first shown: the soil tab, nothing selected or uploaded. */
  const Initial := UploadState("soil", None, 0, false, None, [])

  /** What the page renders for the current session. */
  function Screen(auth: Auth.AuthState): (g: Auth.Gate)
    ensures g.Denied? <==> !Auth.IsAuthenticated(auth)
    ensures g.Denied? ==> g.notice == NoticeText
  {
    Auth.Guard(auth, NoticeText)
  }

  /** `name.split('.').pop().toLowerCase()`: the dot-free tail of the name
      after its last dot (all of it when there is no dot), lower-cased. */
  function Extension(name: string): (e: string)
    ensures |e| <= |name|
    ensures '.' !in name[|name| - |e|..]
    ensures e == Text.Lower(name[|name| - |e|..])
    ensures |e| < |name| ==> name[|name| - |e| - 1] == '.'
  {
    Text.LastSegmentIsTail(name, '.');
    Text.Lower(Text.Last(Text.Split(name, '.')))
  }

  predicate IsCsvName(name: string) {
    Extension(name) == "csv"
  }

  /** The checks `handleFileChange` applies, in order: the size ceiling
      first, then the extension. */
  function CheckFile(f: File): (r: Result<File, FileError>)
    ensures r.Success? <==> f.size <= MaxFileBytes && IsCsvName(f.name)
    ensures r.Success? ==> r.value == f
    ensures f.size > MaxFileBytes ==> r == Failure(TooLarge)
    ensures f.size <= MaxFileBytes && !IsCsvName(f.name) ==> r == Failure(NotCsv)
  {
    if f.size > MaxFileBytes then Failure(TooLarge)
    else if !IsCsvName(f.name) then Failure(NotCsv)
    else Success(f)
  }

  /** `handleFileChange`: a chosen file that passes both checks becomes the
      selection; a rejected file, or no file at all, leaves the page as it
      was. */
  function ChooseFile(s: UploadState, chosen: Option<File>): (r: UploadState)
    ensures chosen.Some? && CheckFile(chosen.value).Success? ==> r == s.(selected := chosen)
    ensures chosen.None? || CheckFile(chosen.value).Failure? ==> r == s
  {
    match chosen
    case None => s
    case Some(f) =>
      match CheckFile(f)
      case Success(_) => s.(selected := Some(f))
      case Failure(_) => s
  }

  /** The upload button: disabled while nothing is selected or an upload
      runs; otherwise `simulateUpload` marks the upload as running, resets
      progress and starts an interval that captures the selection and the
      active tab. */
  function StartUpload(s: UploadState): (r: UploadState)
    ensures s.selected.None? || s.uploading ==> r == s
    ensures s.selected.Some? && !s.uploading ==>
      && r.uploading && r.progress == 0
      && r.job == Some(Job(s.selected.value, s.activeTab))
      && r.selected == s.selected && r.files == s.files && r.activeTab == s.activeTab
  {
    if s.selected.None? || s.uploading then s
    else s.(uploading := true, progress := 0, job := Some(Job(s.selected.value, s.activeTab)))
  }

  /** One interval callback at clock reading `now`. Below 100 the progress
      grows by 5; the callback that finds it at 100 or more stops the
      interval, appends the captured file under the captured tab, clears the
      selection and resets progress. With no interval running nothing
      happens. */
  function Tick(s: UploadState, now: int): (r: UploadState)
    ensures s.job.None? ==> r == s
    ensures s.job.Some? && s.progress < 100 ==> r == s.(progress := s.progress + 5)
    ensures s.job.Some? && s.progress >= 100 ==>
      && r.files == s.files + [UploadedFile(s.job.value.file.name, s.job.value.tab, now)]
      && r.job.None? && !r.uploading && r.selected.None? && r.progress == 0
      && r.activeTab == s.activeTab
  {
    match s.job
    case None => s
    case Some(job) =>
      if s.progress >= 100 then
        s.(uploading := false,
           files := s.files + [UploadedFile(job.file.name, job.tab, now)],
           selected := None,
           progress := 0,
           job := None)
      else s.(progress := s.progress + 5)
  }

  /** `n` interval callbacks in a row, all at clock reading `now`. */
  function Ticks(s: UploadState, n: nat, now: int): UploadState
    decreases n
  {
    if n == 0 then s else Ticks(Tick(s, now), n - 1, now)
  }

  /** `xs.filter((_, i) => i !== index)`: every element whose position is
      not `index`, in order. An index outside the list removes nothing. */
  function RemoveAt<T>(xs: seq<T>, index: int): (r: seq<T>)
    ensures 0 <= index < |xs| ==> |r| == |xs| - 1
    ensures 0 <= index < |xs| ==> forall k :: 0 <= k < index ==> r[k] == xs[k]
    ensures 0 <= index < |xs| ==> forall k :: index <= k < |r| ==> r[k] == xs[k + 1]
    ensures !(0 <= index < |xs|) ==> r == xs
    decreases |xs|
  {
    if |xs| == 0 then []
    else (if index == 0 then [] else [xs[0]]) + RemoveAt(xs[1..], index - 1)
  }

  /** `deleteFile(index)`: only the list changes. */
  function DeleteFile(s: UploadState, index: int): (r: UploadState)
    ensures r == s.(files := RemoveAt(s.files, index))
    ensures 0 <= index < |s.files| ==> r.files == s.files[..index] + s.files[index + 1..]
    ensures !(0 <= index < |s.files|) ==> r == s
  {
    var files := RemoveAt(s.files, index);
    assert 0 <= index < |s.files| ==> files == s.files[..index] + s.files[index + 1..];
    s.(files := files)
  }

  /** The type shown under an uploaded file's name: the type with its first
      character upper-cased and the rest as it is. */
  function TypeLabel(f: UploadedFile): (shown: string)
    ensures |shown| == |f.kind|
    ensures |f.kind| > 0 ==> shown[0] == Text.UpperChar(f.kind[0]) && shown[1..] == f.kind[1..]
  {
    Text.Capitalize(f.kind)
  }

  /** The footer: full-access wording exactly for admins and researchers. */
  function FooterMessage(user: Option<Auth.User>): (m: string)
    ensures m == FullAccessText <==> user.Some? && (user.value.role == Auth.AdminRole || user.value.role == Auth.ResearcherRole)
    ensures m == FullAccessText || m == FarmerText
  {
    if user.Some? && (user.value.role == Auth.AdminRole || user.value.role == Auth.ResearcherRole)
    then FullAccessText else FarmerText
  }

  // ---------------------------------------------------------------------
  // Properties
  // ---------------------------------------------------------------------

  /** The page's own invariant: the running flag and the interval agree,
      and progress is a multiple of 5 in [0, 100] that is 0 when idle. */
  predicate Wellformed(s: UploadState) {
    && (s.uploading <==> s.job.Some?)
    && 0 <= s.progress <= 100
    && s.progress % 5 == 0
    && (!s.uploading ==> s.progress == 0)
  }

  /** The page as first shown is well formed. */
  lemma InitialWellformed()
    ensures Wellformed(Initial)
    ensures Initial.activeTab == "soil" && Initial.files == [] && Initial.selected.None?
  {
  }

  /** What the user and the browser can do on the page: switch tabs, choose
      a file (or cancel the dialog), press the upload button, let an
      interval callback fire, and delete a recorded file. */
  datatype Event = SelectTab(tab: string) | Choose(chosen: Option<File>) | Start | Callback(now: int) | Delete(index: int)

  function Apply(s: UploadState, e: Event): UploadState {
    match e
    case SelectTab(tab) => s.(activeTab := tab)
    case Choose(chosen) => ChooseFile(s, chosen)
    case Start => StartUpload(s)
    case Callback(now) => Tick(s, now)
    case Delete(index) => DeleteFile(s, index)
  }

  /** The page after the events `es`, in order. */
  function Run(s: UploadState, es: seq<Event>): UploadState
    decreases |es|
  {
    if |es| == 0 then s else Run(Apply(s, es[0]), es[1..])
  }

  /** Every state the page can reach from its first rendering is well
      formed, whatever the events. */
  lemma {:induction false} ReachableWellformed(es: seq<Event>)
    ensures Wellformed(Run(Initial, es))
  {
    InitialWellformed();
    RunKeepsWellformed(Initial, es);
  }

  /** Any run of events from a well-formed page ends in a well-formed page. */
  lemma {:induction false} RunKeepsWellformed(s: UploadState, es: seq<Event>)
    requires Wellformed(s)
    ensures Wellformed(Run(s, es))
    decreases |es|
  {
    if |es| > 0 {
      match es[0] {
        case SelectTab(tab) =>
        case Choose(chosen) => OperationsKeepWellformed(s, chosen, 0, 0);
        case Start => OperationsKeepWellformed(s, None, 0, 0);
        case Callback(now) => OperationsKeepWellformed(s, None, 0, now);
        case Delete(index) => OperationsKeepWellformed(s, None, index, 0);
      }
      RunKeepsWellformed(Apply(s, es[0]), es[1..]);
    }
  }

  /** Every operation of the page keeps it well formed. */
  lemma OperationsKeepWellformed(s: UploadState, chosen: Option<File>, index: int, now: int)
    requires Wellformed(s)
    ensures Wellformed(ChooseFile(s, chosen))
    ensures Wellformed(StartUpload(s))
    ensures Wellformed(Tick(s, now))
    ensures Wellformed(DeleteFile(s, index))
  {
    TickKeepsWellformed(s, now);
  }

  /** A callback keeps progress a multiple of 5 within [0, 100]. */
  lemma TickKeepsWellformed(s: UploadState, now: int)
    requires Wellformed(s)
    ensures Wellformed(Tick(s, now))
  {
    if s.job.Some? && s.progress < 100 {
      assert s.progress <= 95;
      assert (s.progress + 5) % 5 == 0;
    }
  }

  /** While progress stays at or below 100, `k` callbacks add exactly `5k`
      and change nothing else. */
  lemma {:induction false} TicksWhileRunning(s: UploadState, k: nat, now: int)
    requires s.job.Some? && s.progress + 5 * k <= 100
    ensures Ticks(s, k, now) == s.(progress := s.progress + 5 * k)
    decreases k
  {
    if k > 0 {
      var t := Tick(s, now);
      assert t == s.(progress := s.progress + 5);
      TicksWhileRunning(t, k - 1, now);
    }
  }

  /** An upload started from an idle page with a file selected shows 100
      after 20 callbacks and completes on the 21st, which appends exactly one
      entry (the file selected and the tab active at the start) and leaves
      the earlier entries untouched. */
  lemma UploadCompletesOnTwentyFirstTick(s: UploadState, now: int)
    requires s.selected.Some? && !s.uploading
    ensures var t := StartUpload(s);
      && Ticks(t, 20, now).uploading && Ticks(t, 20, now).progress == 100
      && var done := Ticks(t, 21, now);
      && !done.uploading && done.job.None? && done.selected.None? && done.progress == 0
      && done.files == s.files + [UploadedFile(s.selected.value.name, s.activeTab, now)]
  {
    var t := StartUpload(s);
    TicksWhileRunning(t, 20, now);
    TicksAppend(t, 20, 1, now);
  }

  /** Running `m` callbacks and then `n` more is running `m + n`. */
  lemma {:induction false} TicksAppend(s: UploadState, m: nat, n: nat, now: int)
    ensures Ticks(Ticks(s, m, now), n, now) == Ticks(s, m + n, now)
    decreases m
  {
    if m > 0 {
      TicksAppend(Tick(s, now), m - 1, n, now);
    }
  }

  /** Deleting at a valid position removes exactly one occurrence of that
      element and keeps all the others; any other position changes nothing. */
  lemma DeleteRemovesOne(s: UploadState, index: int)
    ensures 0 <= index < |s.files| ==>
      multiset(DeleteFile(s, index).files) == multiset(s.files) - multiset{s.files[index]}
    ensures !(0 <= index < |s.files|) ==> DeleteFile(s, index).files == s.files
  {
    if 0 <= index < |s.files| {
      assert s.files == s.files[..index] + [s.files[index]] + s.files[index + 1..];
    }
  }

  /** The size ceiling is inclusive and checked before the extension: a file
      of exactly 5 MB passes the size check, one byte more is refused for its
      size whatever its name. */
  lemma SizeCheckedFirst(name: string)
    ensures CheckFile(File(name, MaxFileBytes)) != Failure(TooLarge)
    ensures CheckFile(File(name, MaxFileBytes + 1)) == Failure(TooLarge)
    ensures MaxFileBytes == 5242880
  {
  }

  /** The extension is compared without regard to ASCII case: a name whose
      last segment is "csv" in any mix of cases, such as "A.CSV", is
      accepted. */
  lemma AnyCaseCsvAccepted(stem: string, ext: string)
    requires |ext| == 3
    requires Text.LowerChar(ext[0]) == 'c' && Text.LowerChar(ext[1]) == 's' && Text.LowerChar(ext[2]) == 'v'
    ensures IsCsvName(stem + ['.'] + ext)
  {
    LowersToCsv(ext);
    CsvNameByLastDot(stem, ext);
  }

  /** The three-letter names that lower-case to "csv". */
  lemma LowersToCsv(ext: string)
    requires |ext| == 3
    requires Text.LowerChar(ext[0]) == 'c' && Text.LowerChar(ext[1]) == 's' && Text.LowerChar(ext[2]) == 'v'
    ensures Text.Lower(ext) == "csv"
  {
    var low := Text.Lower(ext);
    assert low[0] == 'c' && low[1] == 's' && low[2] == 'v';
  }

  /** A dotless name is its own last segment, so the name "csv" itself is
      accepted. The name is a parameter pinned character by character
      because a string literal here makes the verifier unfold `Split` on it
      at great cost; the same holds for the other example lemmas below. */
  lemma BareCsvAccepted(name: string)
    requires |name| == 3 && name[0] == 'c' && name[1] == 's' && name[2] == 'v'
    ensures IsCsvName(name)
  {
    LowersToCsv(name);
    CsvNameWithoutDot(name);
  }

  /** Only the last segment counts: a name ending in ".csv.txt", such as
      "a.csv.txt", is rejected. */
  lemma InnerCsvRejected(stem: string)
    ensures !IsCsvName(stem + ".csv.txt")
  {
    var ext := "txt";
    assert stem + ".csv.txt" == (stem + ".csv") + ['.'] + ext;
    CsvNameByLastDot(stem + ".csv", ext);
    assert Text.Lower(ext)[0] == 't';
  }

  /** A name with a dot is accepted exactly when the text after its last
      dot lower-cases to "csv". */
  lemma CsvNameByLastDot(p: string, q: string)
    requires '.' !in q
    ensures IsCsvName(p + ['.'] + q) <==> Text.Lower(q) == "csv"
  {
    Text.LastSegmentAfterSeparator(p, q, '.');
  }

  /** A name without a dot is accepted exactly when all of it lower-cases to
      "csv". */
  lemma CsvNameWithoutDot(q: string)
    requires '.' !in q
    ensures IsCsvName(q) <==> Text.Lower(q) == "csv"
  {
    Text.LastSegmentWithoutSeparator(q, '.');
  }

  /** The label differs from the type only in letter case: lower-casing
      both gives the same text. */
  lemma LabelChangesOnlyCase(f: UploadedFile)
    ensures Text.Lower(TypeLabel(f)) == Text.Lower(f.kind)
  {
    var shown := TypeLabel(f);
    forall i | 0 <= i < |f.kind|
      ensures Text.Lower(shown)[i] == Text.Lower(f.kind)[i]
    {
      if i == 0 {
        assert Text.LowerChar(Text.UpperChar(f.kind[0])) == Text.LowerChar(f.kind[0]);
      } else {
        assert shown[i] == shown[1..][i - 1] == f.kind[i];
      }
    }
  }

  /** The footer after a successful registration follows the role string the
      caller passed, which registration stores without checking it: only
      exactly "admin" or "researcher" earns the full-access text, so a role
      such as "Admin" gets the farmers' text. */
  lemma RegisteredFooter(s: Auth.AuthState, name: string, email: string, password: string, role: string)
    requires Auth.Register(s, name, email, password, role).status.Pass?
    ensures FooterMessage(Auth.Register(s, name, email, password, role).state.user) == FullAccessText
      <==> role == Auth.AdminRole || role == Auth.ResearcherRole
  {
  }

  /** The three tabs' labels. */
  lemma TypeLabels(now: int)
    ensures TypeLabel(UploadedFile("f.csv", "soil", now)) == "Soil"
    ensures TypeLabel(UploadedFile("f.csv", "environmental", now)) == "Environmental"
    ensures TypeLabel(UploadedFile("f.csv", "crop", now)) == "Crop"
  {
  }
}
