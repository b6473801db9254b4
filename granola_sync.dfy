/** `GranolaSync`: turning a meeting into a note file name, and the sync loop that exports
    each meeting not yet on disk. */
module GranolaSync {
  import opened Wrappers
  import opened Values
  import Text
  import Seqs

  /** The three attributes the job reads from a listed meeting (`meeting["id"]`,
      `meeting["title"]`, `meeting["date"]`); an absent one is `Nil`. */
  datatype Meeting = Meeting(id: Value, title: Value, date: Value)

  /** Ruby's `\w`: ASCII letters, digits and underscore. */
  predicate IsWordChar(c: char)
  {
    'a' <= c <= 'z' || 'A' <= c <= 'Z' || '0' <= c <= '9' || c == '_'
  }

  /** What `gsub(/[^\w\s-]/, "")` keeps. */
  predicate Kept(c: char)
  {
    IsWordChar(c) || Text.IsSpace(c) || c == '-'
  }

  /** The characters a sanitised title is made of. */
  predicate IsSafe(c: char)
  {
    'a' <= c <= 'z' || '0' <= c <= '9' || c == '_' || c == '-'
  }

  predicate AllSafe(s: string)
  {
    forall i :: 0 <= i < |s| ==> IsSafe(s[i])
  }

  /** `s` without its leading `\s` characters. */
  function SkipSpace(s: string): (r: string)
    ensures |r| <= |s| && r == s[|s| - |r|..]
    ensures r == [] || !Text.IsSpace(r[0])
  {
    if s != [] && Text.IsSpace(s[0]) then SkipSpace(s[1..]) else s
  }

  /** `gsub(/\s+/, "-")`: every maximal run of `\s` becomes one hyphen. */
  function CollapseSpace(s: string): (r: string)
    ensures forall i :: 0 <= i < |r| ==> !Text.IsSpace(r[i])
    ensures (forall i :: 0 <= i < |s| ==> Kept(s[i])) ==> forall i :: 0 <= i < |r| ==> IsWordChar(r[i]) || r[i] == '-'
    ensures (forall i :: 0 <= i < |s| ==> !Text.IsSpace(s[i])) ==> r == s
    decreases |s|
  {
    if s == [] then []
    else if Text.IsSpace(s[0]) then
      var rest := SkipSpace(s);
      assert forall i :: 0 <= i < |rest| ==> rest[i] == s[|s| - |rest| + i];
      "-" + CollapseSpace(rest)
    else
      assert forall i :: 0 <= i < |s[1..]| ==> s[1..][i] == s[i + 1];
      [s[0]] + CollapseSpace(s[1..])
  }

  /** The same rewrite read one character at a time: a `\s` writes a hyphen unless the
      previous character was `\s` too (`inRun`); any other character is copied. */
  function HyphenateRuns(s: string, inRun: bool): string
    decreases |s|
  {
    if s == [] then []
    else if Text.IsSpace(s[0]) then (if inRun then "" else "-") + HyphenateRuns(s[1..], true)
    else [s[0]] + HyphenateRuns(s[1..], false)
  }

  /** Inside a run, the rest of the run writes nothing. */
  lemma {:induction false} HyphenateSkipsRun(s: string)
    ensures HyphenateRuns(s, true) == HyphenateRuns(SkipSpace(s), true)
    decreases |s|
  {
    if s != [] && Text.IsSpace(s[0]) {
      HyphenateSkipsRun(s[1..]);
    }
  }

  /** `CollapseSpace` agrees with the character-at-a-time reading. */
  lemma {:induction false} CollapseSpaceIsHyphenateRuns(s: string)
    ensures CollapseSpace(s) == HyphenateRuns(s, false)
    decreases |s|
  {
    if s != [] {
      if Text.IsSpace(s[0]) {
        var rest := SkipSpace(s);
        CollapseSpaceIsHyphenateRuns(rest);
        HyphenateSkipsRun(s[1..]);
        assert rest == SkipSpace(s[1..]);
        assert HyphenateRuns(rest, true) == HyphenateRuns(rest, false);
      } else {
        CollapseSpaceIsHyphenateRuns(s[1..]);
      }
    }
  }

  /** `[0..50]`: the first 51 characters (fewer when the string is shorter). */
  function Take51(s: string): (r: string)
    ensures |r| <= 51 && |r| <= |s| && r == s[..|r|]
    ensures |s| <= 51 ==> r == s
  {
    if |s| <= 51 then s else s[..51]
  }

  /** The sanitised title: unwanted characters removed, whitespace runs turned into
      hyphens, lower-cased and cut to 51 characters. */
  function Sanitize(title: string): string
  {
    Take51(Text.Lower(CollapseSpace(Seqs.Filter(title, Kept))))
  }

  /** A sanitised title is made of safe characters only, and has at most 51 of them. */
  lemma SanitizeIsSafe(title: string)
    ensures AllSafe(Sanitize(title)) && |Sanitize(title)| <= 51
  {
    var collapsed := CollapseSpace(Seqs.Filter(title, Kept));
    var lower := Text.Lower(collapsed);
    forall i | 0 <= i < |lower| ensures IsSafe(lower[i]) {
      assert IsWordChar(collapsed[i]) || collapsed[i] == '-';
    }
    var r := Take51(lower);
    forall i | 0 <= i < |r| ensures IsSafe(r[i]) {
      assert r[i] == lower[i];
    }
  }

  lemma {:induction false} FilterKeepsAll(s: string)
    requires forall i :: 0 <= i < |s| ==> Kept(s[i])
    ensures Seqs.Filter(s, Kept) == s
    decreases |s|
  {
    if s != [] {
      assert forall i :: 0 <= i < |s[1..]| ==> s[1..][i] == s[i + 1];
      FilterKeepsAll(s[1..]);
    }
  }

  lemma LowerOfSafe(s: string)
    requires AllSafe(s)
    ensures Text.Lower(s) == s
  {
    assert forall i :: 0 <= i < |s| ==> Text.LowerChar(s[i]) == s[i];
  }

  /** A safe text of at most 51 characters is its own sanitised form. */
  lemma SanitizeOfSafe(s: string)
    requires AllSafe(s) && |s| <= 51
    ensures Sanitize(s) == s
  {
    assert forall i :: 0 <= i < |s| ==> Kept(s[i]) && !Text.IsSpace(s[i]);
    FilterKeepsAll(s);
    assert CollapseSpace(s) == s;
    LowerOfSafe(s);
  }

  /** Sanitising an already sanitised title changes nothing. */
  lemma SanitizeIdempotent(title: string)
    ensures Sanitize(Sanitize(title)) == Sanitize(title)
  {
    SanitizeIsSafe(title);
    SanitizeOfSafe(Sanitize(title));
  }

  /** The default title survives sanitising. */
  lemma SanitizeUntitled()
    ensures Sanitize("untitled") == "untitled"
  {
    SanitizeOfSafe("untitled");
  }

  /** `meeting["date"]&.split("T")&.first || "unknown"`; `None` when the date is neither
      nil nor a String (calling `split` raises). */
  function DatePart(date: Value): (r: Option<string>)
    ensures r.None? <==> !date.Nil? && !date.Str?
    ensures date.Nil? ==> r == Some("unknown")
    ensures date.Str? && (forall i :: 0 <= i < |date.s| ==> date.s[i] == 'T') ==> r == Some("unknown")
    ensures date.Str? && !(forall i :: 0 <= i < |date.s| ==> date.s[i] == 'T') ==>
      r.Some? && 'T' !in r.value && |r.value| <= |date.s| && r.value == date.s[..|r.value|]
      && (|r.value| == |date.s| || date.s[|r.value|] == 'T')
  {
    match date
    case Nil => Some("unknown")
    case Str(s) =>
      var parts := Text.Split(s, 'T');
      if parts == [] then Some("unknown") else Some(parts[0])
    case _ => None
  }

  /** The title the sanitiser starts from: nil and false give "untitled"; a String is
      itself; anything else raises in `gsub`. */
  function TitleText(title: Value): (r: Option<string>)
    ensures !Truthy(title) ==> r == Some("untitled")
    ensures title.Str? ==> r == Some(title.s)
    ensures r.None? <==> Truthy(title) && !title.Str?
  {
    if !Truthy(title) then Some("untitled")
    else if title.Str? then Some(title.s)
    else None
  }

  /** `safe_filename(meeting)`; `None` when it raises. */
  function SafeFilename(m: Meeting): Option<string>
  {
    match (DatePart(m.date), TitleText(m.title))
    case (Some(date), Some(title)) => Some(date + "-" + Sanitize(title) + ".md")
    case _ => None
  }

  /** A file name exists exactly when neither the date nor the title raises. */
  lemma FilenameExists(m: Meeting)
    ensures SafeFilename(m).Some? <==> DatePart(m.date).Some? && TitleText(m.title).Some?
  {
  }

  /** A file name is the date part, a hyphen, a safe title of at most 51 characters and
      ".md". */
  lemma FilenameShape(m: Meeting)
    requires SafeFilename(m).Some?
    ensures exists title :: (AllSafe(title) && |title| <= 51
      && SafeFilename(m).value == DatePart(m.date).value + "-" + title + ".md")
  {
    var date, text := DatePart(m.date).value, TitleText(m.title).value;
    var title := Sanitize(text);
    SanitizeIsSafe(text);
    assert SafeFilename(m).value == date + "-" + title + ".md";
  }

  /** Without a title the file is named after the date and "untitled". */
  lemma UntitledFilename(m: Meeting)
    requires SafeFilename(m).Some? && !Truthy(m.title)
    ensures SafeFilename(m).value == DatePart(m.date).value + "-" + "untitled" + ".md"
  {
    SanitizeUntitled();
  }

  /** `File.join(NOTES_DIR, filename)`. */
  function NotePath(dir: string, name: string): string
  {
    dir + "/" + name
  }

  const ListFailedMessage: string := "Failed to list Granola meetings - is granola-cli installed and authenticated?"

  datatype SyncError = ListFailed(message: string) | BadMeeting(index: nat)

  /** What happened to one meeting. */
  datatype Step = Skipped(path: string) | Exported(path: string) | ExportFailed(path: string)

  /** The fixed inputs of one sync: the notes directory, `options["force"]`, the file
      naming (`safe_filename`, `None` when it raises) and the export command's answers
      (`Some(markdown)` on success), by call number and meeting id. */
  datatype SyncSetup = SyncSetup(dir: string, force: bool, name: Meeting -> Option<string>,
                                 exporter: (nat, string) -> Option<string>)

  datatype SyncState = SyncState(files: map<string, string>, synced: nat, calls: nat, steps: seq<Step>,
                                 error: Option<SyncError>)

  /** One pass of the `meetings.each` block. */
  function SyncStep(setup: SyncSetup, st: SyncState, m: Meeting): SyncState
  {
    if st.error.Some? then st
    else match setup.name(m)
      case None => st.(error := Some(BadMeeting(|st.steps|)))
      case Some(name) =>
        var path := NotePath(setup.dir, name);
        if path in st.files && !setup.force then st.(steps := st.steps + [Skipped(path)])
        else match setup.exporter(st.calls, Display(m.id))
          case Some(markdown) =>
            SyncState(st.files[path := markdown], st.synced + 1, st.calls + 1, st.steps + [Exported(path)], None)
          case None => st.(calls := st.calls + 1, steps := st.steps + [ExportFailed(path)])
  }

  /** The loop over `meetings`, as a left fold. */
  function Sync(setup: SyncSetup, st: SyncState, ms: seq<Meeting>): SyncState
    decreases |ms|
  {
    if ms == [] then st else SyncStep(setup, Sync(setup, st, ms[..|ms| - 1]), ms[|ms| - 1])
  }

  /** The fold over a prefix one meeting longer is one more step. */
  lemma SyncPrefixStep(setup: SyncSetup, st: SyncState, ms: seq<Meeting>, i: nat)
    requires i < |ms|
    ensures Sync(setup, st, ms[..i + 1]) == SyncStep(setup, Sync(setup, st, ms[..i]), ms[i])
  {
    assert ms[..i + 1][..i] == ms[..i];
  }

  function Exports(steps: seq<Step>): nat
  {
    if steps == [] then 0 else Exports(steps[..|steps| - 1]) + (if steps[|steps| - 1].Exported? then 1 else 0)
  }

  function Start(files: map<string, string>): SyncState
  {
    SyncState(files, 0, 0, [], None)
  }

  /** Until a meeting raises, every meeting leaves exactly one step. */
  lemma {:induction false} SyncLength(setup: SyncSetup, files: map<string, string>, ms: seq<Meeting>)
    ensures |Sync(setup, Start(files), ms).steps| <= |ms|
    ensures Sync(setup, Start(files), ms).error.None? ==> |Sync(setup, Start(files), ms).steps| == |ms|
    decreases |ms|
  {
    if ms != [] {
      SyncLength(setup, files, ms[..|ms| - 1]);
    }
  }

  /** The count is the number of successful exports, hence at most the number of
      meetings. */
  lemma {:induction false} SyncCounts(setup: SyncSetup, files: map<string, string>, ms: seq<Meeting>)
    ensures Sync(setup, Start(files), ms).synced == Exports(Sync(setup, Start(files), ms).steps)
    ensures Sync(setup, Start(files), ms).synced <= |ms|
    decreases |ms|
  {
    if ms != [] {
      var prev := Sync(setup, Start(files), ms[..|ms| - 1]);
      SyncCounts(setup, files, ms[..|ms| - 1]);
      SyncLength(setup, files, ms[..|ms| - 1]);
      ExportsAtMostSteps(prev.steps);
      var s := SyncStep(setup, prev, ms[|ms| - 1]);
      if s.steps != prev.steps {
        assert s.steps[..|s.steps| - 1] == prev.steps;
      }
    }
  }

  lemma {:induction false} ExportsAtMostSteps(steps: seq<Step>)
    ensures Exports(steps) <= |steps|
    decreases |steps|
  {
    if steps != [] {
      ExportsAtMostSteps(steps[..|steps| - 1]);
    }
  }

  /** Files are only added or replaced, and only by an export. */
  lemma {:induction false} SyncWrites(setup: SyncSetup, files: map<string, string>, ms: seq<Meeting>)
    ensures var s := Sync(setup, Start(files), ms);
      (forall p :: p in files ==> p in s.files)
      && (forall p :: p in s.files && (p !in files || s.files[p] != files[p]) ==> Exported(p) in s.steps)
    decreases |ms|
  {
    if ms != [] {
      var prev := Sync(setup, Start(files), ms[..|ms| - 1]);
      SyncWrites(setup, files, ms[..|ms| - 1]);
      var s := SyncStep(setup, prev, ms[|ms| - 1]);
      if s.steps != prev.steps {
        assert s.steps[..|s.steps| - 1] == prev.steps;
        forall p | p in s.files && (p !in files || s.files[p] != files[p]) ensures Exported(p) in s.steps {
          if p in prev.files && (p !in files || prev.files[p] != files[p]) {
            assert Exported(p) in prev.steps;
          }
        }
      }
    }
  }

  /** Without `force`, no file that existed before is changed. */
  lemma {:induction false} NoForceKeepsFiles(setup: SyncSetup, st: SyncState, ms: seq<Meeting>)
    requires !setup.force
    ensures forall p :: p in st.files ==> p in Sync(setup, st, ms).files && Sync(setup, st, ms).files[p] == st.files[p]
    decreases |ms|
  {
    if ms != [] {
      NoForceKeepsFiles(setup, st, ms[..|ms| - 1]);
      var prev := Sync(setup, st, ms[..|ms| - 1]);
      assert forall p :: p in prev.files ==> p in Sync(setup, st, ms).files && Sync(setup, st, ms).files[p] == prev.files[p];
    }
  }

  /** The steps of a prefix of the meetings are a prefix of the steps. */
  lemma {:induction false} SyncPrefix(setup: SyncSetup, st: SyncState, ms: seq<Meeting>, k: nat)
    requires k <= |ms|
    ensures Sync(setup, st, ms[..k]).steps <= Sync(setup, st, ms).steps
    ensures Sync(setup, st, ms).error.None? ==> Sync(setup, st, ms[..k]).error.None?
    decreases |ms|
  {
    if k < |ms| {
      SyncPrefix(setup, st, ms[..|ms| - 1], k);
      assert ms[..|ms| - 1][..k] == ms[..k];
    } else {
      assert ms[..k] == ms;
    }
  }

  /** One meeting that does not raise adds one step, for its own path; it is a skip
      exactly when the file exists and `force` is not set. */
  lemma StepOutcome(setup: SyncSetup, before: SyncState, m: Meeting)
    requires before.error.None? && SyncStep(setup, before, m).error.None?
    ensures setup.name(m).Some?
    ensures |SyncStep(setup, before, m).steps| == |before.steps| + 1
    ensures SyncStep(setup, before, m).steps[..|before.steps|] == before.steps
    ensures SyncStep(setup, before, m).steps[|before.steps|].path == NotePath(setup.dir, setup.name(m).value)
    ensures SyncStep(setup, before, m).steps[|before.steps|].Skipped?
      <==> NotePath(setup.dir, setup.name(m).value) in before.files && !setup.force
  {
  }

  /** Meeting `k` is skipped exactly when its file exists at that point and `force` is not
      set; it is exported otherwise. */
  lemma SkipRule(setup: SyncSetup, files: map<string, string>, ms: seq<Meeting>, k: nat)
    requires k < |ms| && Sync(setup, Start(files), ms).error.None?
    ensures setup.name(ms[k]).Some? && |Sync(setup, Start(files), ms).steps| == |ms|
    ensures Sync(setup, Start(files), ms).steps[k].path == NotePath(setup.dir, setup.name(ms[k]).value)
    ensures Sync(setup, Start(files), ms).steps[k].Skipped?
      <==> NotePath(setup.dir, setup.name(ms[k]).value) in Sync(setup, Start(files), ms[..k]).files && !setup.force
  {
    var before := Sync(setup, Start(files), ms[..k]);
    var after1 := Sync(setup, Start(files), ms[..k + 1]);
    var after := Sync(setup, Start(files), ms);
    SyncLength(setup, files, ms);
    SyncPrefix(setup, Start(files), ms, k + 1);
    SyncPrefix(setup, Start(files), ms[..k + 1], k);
    assert ms[..k + 1][..k] == ms[..k];
    SyncLength(setup, files, ms[..k]);
    assert after1 == SyncStep(setup, before, ms[k]);
    StepOutcome(setup, before, ms[k]);
    assert after.steps[k] == after1.steps[k];
  }

  /** The directory of note files the job writes into. */
  class NotesDir {
    const dir: string
    var files: map<string, string>

    constructor (dir: string, files: map<string, string>)
      ensures this.dir == dir && this.files == files
    {
      this.dir := dir;
      this.files := files;
    }

    /** `perform`: `listing` is the parsed output of the list command, `None` when the
        command fails. */
    method Perform(listing: Option<seq<Meeting>>, force: Value, exporter: (nat, string) -> Option<string>)
      returns (r: Result<nat, SyncError>, ghost steps: seq<Step>)
      modifies this`files
      ensures listing.None? ==> r == Failure(ListFailed(ListFailedMessage)) && files == old(files) && steps == []
      ensures listing.Some? ==>
        var s := Sync(SyncSetup(dir, Truthy(force), SafeFilename, exporter), Start(old(files)), listing.value);
        files == s.files && steps == s.steps
        && r == (if s.error.Some? then Failure(s.error.value) else Success(s.synced))
    {
      if listing.None? {
        return Failure(ListFailed(ListFailedMessage)), [];
      }
      r, steps := ExportAll(SyncSetup(dir, Truthy(force), SafeFilename, exporter), listing.value);
    }

    /** The `meetings.each` loop of `perform`, for any way of naming and exporting a
        meeting. */
    method ExportAll(setup: SyncSetup, meetings: seq<Meeting>) returns (r: Result<nat, SyncError>, ghost steps: seq<Step>)
      requires setup.dir == dir
      modifies this`files
      ensures var s := Sync(setup, Start(old(files)), meetings);
        files == s.files && steps == s.steps
        && r == (if s.error.Some? then Failure(s.error.value) else Success(s.synced))
    {
      ghost var start := Start(files);
      var syncedCount := 0;
      var calls := 0;
      steps := [];
      var i := 0;
      while i < |meetings|
        invariant 0 <= i <= |meetings|
        invariant Sync(setup, start, meetings[..i]) == SyncState(files, syncedCount, calls, steps, None)
        invariant |steps| == i
      {
        SyncPrefixStep(setup, start, meetings, i);
        var m := meetings[i];
        var filename := setup.name(m);
        if filename.None? {
          SyncAfterError(setup, start, meetings, i + 1);
          return Failure(BadMeeting(i)), steps;
        }
        var path := NotePath(dir, filename.value);
        if path in files && !setup.force {
          steps := steps + [Skipped(path)];
        } else {
          var markdown := setup.exporter(calls, Display(m.id));
          calls := calls + 1;
          if markdown.Some? {
            files := files[path := markdown.value];
            syncedCount := syncedCount + 1;
            steps := steps + [Exported(path)];
          } else {
            steps := steps + [ExportFailed(path)];
          }
        }
        i := i + 1;
      }
      assert meetings[..i] == meetings;
      r := Success(syncedCount);
    }
  }

  /** Once a meeting has raised, the later ones change nothing. */
  lemma {:induction false} SyncAfterError(setup: SyncSetup, st: SyncState, ms: seq<Meeting>, k: nat)
    requires k <= |ms| && Sync(setup, st, ms[..k]).error.Some?
    ensures Sync(setup, st, ms) == Sync(setup, st, ms[..k])
    decreases |ms|
  {
    if k < |ms| {
      assert ms[..|ms| - 1][..k] == ms[..k];
      SyncAfterError(setup, st, ms[..|ms| - 1], k);
    } else {
      assert ms[..k] == ms;
    }
  }
}
