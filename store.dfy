/** The application-wide store (src/contexts/LinguaLiftContext.tsx): its state,
    its actions, the reducer, and the snapshot that is saved and loaded. */
module Store {
  import opened Types
  import opened Seqs

  datatype State = State(
    files: seq<VocabFile>,
    history: seq<AnswerRecord>,
    quizSettings: Option<QuizSettings>,
    lastQuizSettings: Option<QuizSettings>,
    isQuizInProgress: bool,
    settings: AppSettings)

  /** `Partial<State>`: `None` is a key the payload leaves out. */
  datatype StatePatch = StatePatch(
    files: Option<seq<VocabFile>>,
    history: Option<seq<AnswerRecord>>,
    quizSettings: Option<Option<QuizSettings>>,
    lastQuizSettings: Option<Option<QuizSettings>>,
    isQuizInProgress: Option<bool>,
    settings: Option<AppSettings>)

  /** `Partial<AppSettings>`. */
  datatype SettingsPatch = SettingsPatch(
    tapToContinueOnIncorrect: Option<bool>,
    statsCarouselIndex: Option<int>)

  datatype Action =
    | SetState(patch: StatePatch)
    | AddFile(file: VocabFile)
    | DeleteFile(fileId: string)
    | AddHistory(records: seq<AnswerRecord>)
    | SetQuizSettings(quiz: Option<QuizSettings>)
    | SetLastQuizSettings(last: Option<QuizSettings>)
    | SetSettings(settingsPatch: SettingsPatch)
    | Unrecognised(tag: string)

  const InitialSettings: AppSettings := AppSettings(true, 0)

  const InitialState: State := State([], [], None, None, false, InitialSettings)

  function FileOutside(id: string): VocabFile -> bool {
    (f: VocabFile) => f.id != id
  }

  function RecordOutside(id: string): AnswerRecord -> bool {
    (r: AnswerRecord) => r.fileId != id
  }

  /** `{ ...settings, ...patch }`. */
  function MergeSettings(s: AppSettings, patch: SettingsPatch): AppSettings {
    AppSettings(
      patch.tapToContinueOnIncorrect.GetOr(s.tapToContinueOnIncorrect),
      patch.statsCarouselIndex.GetOr(s.statsCarouselIndex))
  }

  /** `{ ...state, ...patch }`. */
  function MergeState(s: State, patch: StatePatch): State {
    State(
      patch.files.GetOr(s.files),
      patch.history.GetOr(s.history),
      patch.quizSettings.GetOr(s.quizSettings),
      patch.lastQuizSettings.GetOr(s.lastQuizSettings),
      patch.isQuizInProgress.GetOr(s.isQuizInProgress),
      patch.settings.GetOr(s.settings))
  }

  /** `linguaLiftReducer`. */
  function Step(s: State, a: Action): State {
    match a
    case SetState(patch) => MergeState(s, patch)
    case AddFile(f) => s.(files := s.files + [f])
    case DeleteFile(id) =>
      s.(files := Filter(s.files, FileOutside(id)), history := Filter(s.history, RecordOutside(id)))
    case AddHistory(records) => s.(history := s.history + records)
    case SetQuizSettings(q) => s.(quizSettings := q, isQuizInProgress := q != None)
    case SetLastQuizSettings(l) => s.(lastQuizSettings := l)
    case SetSettings(patch) => s.(settings := MergeSettings(s.settings, patch))
    case Unrecognised(_) => s
  }

  // ---- what each action changes, and that it changes nothing else ----

  datatype Field = FilesField | HistoryField | QuizSettingsField | LastQuizSettingsField
                 | InProgressField | SettingsField

  /** The fields an action may write. */
  function Writes(a: Action): set<Field> {
    match a
    case SetState(p) =>
      (if p.files.Some? then {FilesField} else {})
      + (if p.history.Some? then {HistoryField} else {})
      + (if p.quizSettings.Some? then {QuizSettingsField} else {})
      + (if p.lastQuizSettings.Some? then {LastQuizSettingsField} else {})
      + (if p.isQuizInProgress.Some? then {InProgressField} else {})
      + (if p.settings.Some? then {SettingsField} else {})
    case AddFile(_) => {FilesField}
    case DeleteFile(_) => {FilesField, HistoryField}
    case AddHistory(_) => {HistoryField}
    case SetQuizSettings(_) => {QuizSettingsField, InProgressField}
    case SetLastQuizSettings(_) => {LastQuizSettingsField}
    case SetSettings(_) => {SettingsField}
    case Unrecognised(_) => {}
  }

  predicate SameField(s: State, t: State, f: Field) {
    match f
    case FilesField => s.files == t.files
    case HistoryField => s.history == t.history
    case QuizSettingsField => s.quizSettings == t.quizSettings
    case LastQuizSettingsField => s.lastQuizSettings == t.lastQuizSettings
    case InProgressField => s.isQuizInProgress == t.isQuizInProgress
    case SettingsField => s.settings == t.settings
  }

  /** Every action leaves the fields it does not name as they were, and an
      action the reducer does not recognise returns the state itself. */
  lemma StepFrame(s: State, a: Action, f: Field)
    requires f !in Writes(a)
    ensures SameField(s, Step(s, a), f)
    ensures a.Unrecognised? ==> Step(s, a) == s
  {
  }

  /** `DELETE_FILE` removes exactly the files with that id and the history
      records filed under it, keeping everything else in order. */
  lemma {:induction false} DeleteFileCascades(s: State, id: string)
    ensures var t := Step(s, DeleteFile(id));
      && (forall f :: f in t.files <==> f in s.files && f.id != id)
      && (forall r :: r in t.history <==> r in s.history && r.fileId != id)
      && |t.files| == |s.files| - Count(s.files, (f: VocabFile) => f.id == id)
      && |t.history| == |s.history| - Count(s.history, (r: AnswerRecord) => r.fileId == id)
      && t.quizSettings == s.quizSettings && t.lastQuizSettings == s.lastQuizSettings
      && t.isQuizInProgress == s.isQuizInProgress && t.settings == s.settings
  {
    var onFile := (f: VocabFile) => f.id == id;
    var onRecord := (r: AnswerRecord) => r.fileId == id;
    FilterSplitsLength(s.files, FileOutside(id), onFile);
    FilterSplitsLength(s.history, RecordOutside(id), onRecord);
  }

  /** Deletion keeps relative order: deleting from a concatenation deletes
      from each part. */
  lemma DeleteFileKeepsOrder(a: seq<AnswerRecord>, b: seq<AnswerRecord>, id: string)
    ensures Filter(a + b, RecordOutside(id)) == Filter(a, RecordOutside(id)) + Filter(b, RecordOutside(id))
  {
    FilterAppend(a, b, RecordOutside(id));
  }

  /** `ADD_HISTORY` appends: the old history is a prefix of the new one. */
  lemma AddHistoryAppends(s: State, records: seq<AnswerRecord>)
    ensures var t := Step(s, AddHistory(records));
      && |t.history| == |s.history| + |records|
      && t.history[..|s.history|] == s.history
      && t.history[|s.history|..] == records
      && t.files == s.files
  {
  }

  /** `ADD_FILE` puts the new file last. */
  lemma AddFileAppends(s: State, f: VocabFile)
    ensures var t := Step(s, AddFile(f));
      && |t.files| == |s.files| + 1 && t.files[|s.files|] == f
      && t.files[..|s.files|] == s.files && t.history == s.history
  {
  }

  /** After `SET_QUIZ_SETTINGS`, a quiz is in progress exactly when the payload
      is not null. */
  lemma SetQuizSettingsFlag(s: State, q: Option<QuizSettings>)
    ensures Step(s, SetQuizSettings(q)).isQuizInProgress <==> q.Some?
    ensures Step(s, SetQuizSettings(q)).quizSettings == q
  {
  }

  /** `SET_SETTINGS` overrides exactly the keys present in the patch. */
  lemma SetSettingsMerges(s: State, patch: SettingsPatch)
    ensures var t := Step(s, SetSettings(patch)).settings;
      && (patch.tapToContinueOnIncorrect.Some? ==> t.tapToContinueOnIncorrect == patch.tapToContinueOnIncorrect.value)
      && (patch.tapToContinueOnIncorrect.None? ==> t.tapToContinueOnIncorrect == s.settings.tapToContinueOnIncorrect)
      && (patch.statsCarouselIndex.Some? ==> t.statsCarouselIndex == patch.statsCarouselIndex.value)
      && (patch.statsCarouselIndex.None? ==> t.statsCarouselIndex == s.settings.statsCarouselIndex)
  {
  }

  // ---- persistence: the snapshot that is saved and the state rebuilt on load ----

  /** `stateToSave`: the state with the active quiz dropped. */
  function Snapshot(s: State): (r: State)
    ensures r.quizSettings == None && !r.isQuizInProgress
    ensures r.files == s.files && r.history == s.history
    ensures r.lastQuizSettings == s.lastQuizSettings && r.settings == s.settings
  {
    s.(quizSettings := None, isQuizInProgress := false)
  }

  /** The parsed stored object: any key may be missing (older versions of the
      application saved fewer keys), and `settings` may be missing or hold only
      some of its keys. */
  datatype StoredState = StoredState(
    files: Option<seq<VocabFile>>,
    history: Option<seq<AnswerRecord>>,
    quizSettings: Option<Option<QuizSettings>>,
    lastQuizSettings: Option<Option<QuizSettings>>,
    isQuizInProgress: Option<bool>,
    settings: Option<SettingsPatch>)

  /** What saving writes: every key of the snapshot. */
  function Encode(s: State): StoredState {
    var snap := Snapshot(s);
    StoredState(
      Some(snap.files), Some(snap.history), Some(snap.quizSettings), Some(snap.lastQuizSettings),
      Some(snap.isQuizInProgress),
      Some(SettingsPatch(Some(snap.settings.tapToContinueOnIncorrect), Some(snap.settings.statsCarouselIndex))))
  }

  /** `finalState`: the stored keys over the initial state, the active quiz
      forced off and the stored settings merged over the default settings. */
  function Rebuild(p: StoredState): State {
    State(
      p.files.GetOr(InitialState.files),
      p.history.GetOr(InitialState.history),
      None,
      p.lastQuizSettings.GetOr(InitialState.lastQuizSettings),
      false,
      MergeSettings(InitialSettings, p.settings.GetOr(SettingsPatch(None, None))))
  }

  /** The full patch `SET_STATE` receives on load. */
  function PatchOf(s: State): StatePatch {
    StatePatch(Some(s.files), Some(s.history), Some(s.quizSettings), Some(s.lastQuizSettings),
               Some(s.isQuizInProgress), Some(s.settings))
  }

  /** Loading: nothing stored leaves the state alone, otherwise `SET_STATE`
      with the rebuilt state. */
  function Load(current: State, stored: Option<StoredState>): State {
    match stored
    case None => current
    case Some(p) => Step(current, SetState(PatchOf(Rebuild(p))))
  }

  /** A loaded state never has an active quiz, and settings absent from
      storage take their defaults (tap-to-continue on). */
  lemma LoadedStateHasNoQuiz(current: State, p: StoredState)
    ensures var t := Load(current, Some(p));
      && t.quizSettings == None && !t.isQuizInProgress
      && ((p.settings.None? || p.settings.value.tapToContinueOnIncorrect.None?)
            ==> t.settings.tapToContinueOnIncorrect)
      && ((p.settings.None? || p.settings.value.statsCarouselIndex.None?)
            ==> t.settings.statsCarouselIndex == 0)
  {
  }

  /** Saving and then loading gives back the saved state without its quiz,
      whatever state the loader started from. */
  lemma SaveLoadRoundTrip(saved: State, current: State)
    ensures Load(current, Some(Encode(saved))) == Snapshot(saved)
  {
  }
}
