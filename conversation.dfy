/**
 * The guided conversation of `/report`: seven states, one handler per state,
 * and the ConversationHandler that routes each update to the handler of the
 * current state or to the `/cancel` fallback. The draft is the user's
 * `context.user_data` map; confirming the review saves it with
 * `save_report`. `today` and "is the user a field supervisor" are
 * parameters where the bot reads the clock and its configured id list.
 */
module Conversation {
  import opened Wrappers
  import opened Calendar
  import opened IsoDate
  import opened Reports

  /** The conversation states of lines 47-51, and End (no conversation running). */
  datatype State =
    | End
    | SupervisorName
    | VisitDate
    | SchoolName
    | MaintenanceNotes
    | AcNotes
    | CleaningNotes
    | ReviewReport

  /**
   * An update as the registered handlers classify it. Text: a text message
   * that is not a command (`filters.TEXT & ~filters.COMMAND`). Command: a
   * `/name` command. Callback: an inline-button press with its data. Other:
   * anything else (a photo, a sticker, ...).
   */
  datatype Event = Text(text: string) | Command(name: string) | Callback(data: string) | Other

  /**
   * The outcome of one update: the next state, the next draft, and whether
   * the update asks for the current draft to be saved first.
   */
  datatype Step = Step(state: State, draft: map<string, string>, save: bool)

  type Draft = map<string, string>

  /** "✍️ كتابة يدوياً": type the supervisor name by hand. */
  const ManualName := "✍️ كتابة يدوياً"
  /** "إلغاء": cancel, offered at the name step. */
  const CancelWord := "إلغاء"
  /** "📅 اليوم": today. */
  const QuickToday := "\U{1F4C5} اليوم"
  /** "📅 أمس": yesterday. */
  const QuickYesterday := "\U{1F4C5} أمس"
  /** "✍️ إدخال تاريخ": type the date by hand. */
  const ManualDate := "✍️ إدخال تاريخ"
  /** The callback data of the review's cancel button. */
  const CancelReport := "cancel_report"

  const ReportCommand := "report"
  const CancelCommand := "cancel"

  /** Nothing changes: the update is ignored, or its handler raised before changing anything. */
  function Unchanged(s: State, draft: Draft): Step
  {
    Step(s, draft, false)
  }

  /**
   * `start_report`: only field supervisors enter the conversation. The draft
   * is kept, yet whatever it holds is consistent with the name step.
   */
  function StartReport(draft: Draft, isSupervisor: bool): (r: Step)
    ensures r.state == SupervisorName <==> isSupervisor
    ensures r.state != SupervisorName ==> r.state == End
    ensures !r.save && Consistent(r.state, r.draft)
  {
    if isSupervisor then Step(SupervisorName, draft, false) else Step(End, draft, false)
  }

  /**
   * `get_supervisor_name`. The manual-entry button asks again; the cancel
   * word ends the conversation but keeps the draft; any other text is the
   * name, staged before the date is asked.
   */
  function GetSupervisorName(draft: Draft, text: string): (r: Step)
    ensures !r.save && Consistent(r.state, r.draft)
    ensures r.state == VisitDate <==> text != ManualName && text != CancelWord
    ensures r.state == VisitDate ==> r.draft[SupervisorNameKey] == text
    ensures r.state != VisitDate ==> r.draft == draft
  {
    if text == ManualName then Step(SupervisorName, draft, false)
    else if text == CancelWord then Step(End, draft, false)
    else Step(VisitDate, draft[SupervisorNameKey := text], false)
  }

  /** Stages `str(d)` and moves on to the school name. */
  function StageDate(draft: Draft, d: Date): (r: Step)
    requires Valid(d)
    ensures r.state == SchoolName && !r.save && VisitDateKey in r.draft && IsIsoDate(r.draft[VisitDateKey])
    ensures r.draft == draft[VisitDateKey := r.draft[VisitDateKey]]
  {
    ParseFormat(d);
    Step(SchoolName, draft[VisitDateKey := Format(d)], false)
  }

  /**
   * `get_visit_date`. Yesterday before 0001-01-01 raises OverflowError,
   * which leaves state and draft as they were; text `strptime` rejects
   * keeps asking for the date.
   */
  function GetVisitDate(draft: Draft, text: string, today: Date): (r: Step)
    requires Valid(today)
    ensures !r.save && (r.state == SchoolName || r == Step(VisitDate, draft, false))
    ensures r.state == SchoolName ==>
              VisitDateKey in r.draft && IsIsoDate(r.draft[VisitDateKey])
              && r.draft == draft[VisitDateKey := r.draft[VisitDateKey]]
  {
    if text == QuickToday then StageDate(draft, today)
    else if text == QuickYesterday then
      match AddDays(today, -1)
      case None => Unchanged(VisitDate, draft)
      case Some(y) => StageDate(draft, y)
    else if text == ManualDate then Step(VisitDate, draft, false)
    else
      match Parse(text)
      case None => Step(VisitDate, draft, false)
      case Some(d) => StageDate(draft, d)
  }

  /** `get_school_name` and the three notes handlers stage their text verbatim and keep the draft consistent. */
  function GetSchoolName(draft: Draft, text: string): Step
  {
    Step(MaintenanceNotes, draft[SchoolNameKey := text], false)
  }

  function GetMaintenanceNotes(draft: Draft, text: string): Step
  {
    Step(AcNotes, draft[MaintenanceNotesKey := text], false)
  }

  function GetAcNotes(draft: Draft, text: string): Step
  {
    Step(CleaningNotes, draft[AcNotesKey := text], false)
  }

  /** The review that follows reads every field, and a consistent draft has them all. */
  function GetCleaningNotes(draft: Draft, text: string): Step
  {
    Step(ReviewReport, draft[CleaningNotesKey := text], false)
  }

  /**
   * `confirm_report`: the cancel button clears the draft; any other button
   * saves the draft, then clears it.
   */
  function ConfirmReport(draft: Draft, data: string): (r: Step)
    ensures r.state == End && r.draft == map[]
    ensures r.save <==> data != CancelReport
  {
    if data == CancelReport then Step(End, map[], false) else Step(End, map[], true)
  }

  /** `cancel`, the `/cancel` fallback: clears the draft. */
  function Cancel(draft: Draft): (r: Step)
    ensures r.state == End && r.draft == map[] && !r.save
  {
    Step(End, map[], false)
  }

  /**
   * The ConversationHandler of lines 568-580: `/report` enters from End
   * only, each state takes the one kind of update its handler is
   * registered for, `/cancel` is the fallback of every running state, and
   * every other update leaves the conversation alone.
   */
  function Transition(s: State, draft: Draft, ev: Event, today: Date, isSupervisor: bool): (r: Step)
    requires Valid(today)
  {
    if s == End then
      if ev == Command(ReportCommand) then StartReport(draft, isSupervisor) else Unchanged(s, draft)
    else if ev == Command(CancelCommand) then Cancel(draft)
    else
      match (s, ev)
      case (SupervisorName, Text(t)) => GetSupervisorName(draft, t)
      case (VisitDate, Text(t)) => GetVisitDate(draft, t, today)
      case (SchoolName, Text(t)) => GetSchoolName(draft, t)
      case (MaintenanceNotes, Text(t)) => GetMaintenanceNotes(draft, t)
      case (AcNotes, Text(t)) => GetAcNotes(draft, t)
      case (CleaningNotes, Text(t)) => GetCleaningNotes(draft, t)
      case (ReviewReport, Callback(data)) => ConfirmReport(draft, data)
      case _ => Unchanged(s, draft)
  }

  /** The step after each text-taking state on a plain answer. */
  function NextState(s: State): State
  {
    match s
    case SupervisorName => VisitDate
    case VisitDate => SchoolName
    case SchoolName => MaintenanceNotes
    case MaintenanceNotes => AcNotes
    case AcNotes => CleaningNotes
    case CleaningNotes => ReviewReport
    case _ => s
  }

  /** The draft key each text-taking state fills. */
  function StepKey(s: State): string
  {
    match s
    case SupervisorName => SupervisorNameKey
    case VisitDate => VisitDateKey
    case SchoolName => SchoolNameKey
    case MaintenanceNotes => MaintenanceNotesKey
    case AcNotes => AcNotesKey
    case CleaningNotes => CleaningNotesKey
    case _ => ""
  }

  /** The draft keys every earlier step has filled on the way to `s`. */
  function Staged(s: State): set<string>
  {
    match s
    case End => {}
    case SupervisorName => {}
    case VisitDate => {SupervisorNameKey}
    case SchoolName => {SupervisorNameKey, VisitDateKey}
    case MaintenanceNotes => {SupervisorNameKey, VisitDateKey, SchoolNameKey}
    case AcNotes => {SupervisorNameKey, VisitDateKey, SchoolNameKey, MaintenanceNotesKey}
    case CleaningNotes => {SupervisorNameKey, VisitDateKey, SchoolNameKey, MaintenanceNotesKey, AcNotesKey}
    case ReviewReport => {SupervisorNameKey, VisitDateKey, SchoolNameKey, MaintenanceNotesKey, AcNotesKey, CleaningNotesKey}
  }

  /** The draft holds what the state promises, and its visit date, once staged, is `str` of a date. */
  ghost predicate Consistent(s: State, draft: Draft)
  {
    Staged(s) <= draft.Keys
    && (VisitDateKey in Staged(s) ==> IsIsoDate(draft[VisitDateKey]))
  }

  /** A plain answer moves each text-taking state to the next one and stages the text verbatim. */
  lemma AnswerAdvances(s: State, draft: Draft, t: string, today: Date, isSupervisor: bool)
    requires Valid(today)
    requires s in {SchoolName, MaintenanceNotes, AcNotes, CleaningNotes}
             || (s == SupervisorName && t != ManualName && t != CancelWord)
    ensures Transition(s, draft, Text(t), today, isSupervisor) == Step(NextState(s), draft[StepKey(s) := t], false)
  {
  }

  /** A date `strptime` accepts is staged in the ISO form `str(date)` and the school name is asked next. */
  lemma TypedDateAdvances(draft: Draft, t: string, today: Date, isSupervisor: bool)
    requires Valid(today) && Parse(t).Some?
    ensures var d := Parse(t).value;
            Transition(VisitDate, draft, Text(t), today, isSupervisor) == Step(SchoolName, draft[VisitDateKey := Format(d)], false)
            && IsIsoDate(Format(d))
  {
    VisitDateText(draft, t, today, isSupervisor);
    TypedDate(draft, t, today);
    ParseFormat(Parse(t).value);
  }

  lemma TypedDate(draft: Draft, t: string, today: Date)
    requires Valid(today) && Parse(t).Some?
    ensures GetVisitDate(draft, t, today) == StageDate(draft, Parse(t).value)
  {
    ButtonsAreNotDates();
  }

  /** Text at the date step goes to `get_visit_date`. */
  lemma VisitDateText(draft: Draft, t: string, today: Date, isSupervisor: bool)
    requires Valid(today)
    ensures Transition(VisitDate, draft, Text(t), today, isSupervisor) == GetVisitDate(draft, t, today)
  {
  }

  /** The quick buttons stage today and the day before it. */
  lemma QuickDates(draft: Draft, today: Date, isSupervisor: bool)
    requires Valid(today)
    ensures Transition(VisitDate, draft, Text(QuickToday), today, isSupervisor)
            == Step(SchoolName, draft[VisitDateKey := Format(today)], false)
    ensures today != FirstDate ==>
              var y := AddDays(today, -1);
              y.Some? && Ordinal(y.value) == Ordinal(today) - 1
              && Transition(VisitDate, draft, Text(QuickYesterday), today, isSupervisor)
                 == Step(SchoolName, draft[VisitDateKey := Format(y.value)], false)
    ensures today == FirstDate ==>
              Transition(VisitDate, draft, Text(QuickYesterday), today, isSupervisor) == Step(VisitDate, draft, false)
  {
    VisitDateText(draft, QuickToday, today, isSupervisor);
    VisitDateText(draft, QuickYesterday, today, isSupervisor);
    assert QuickYesterday != QuickToday;
    OrdinalLowerBound(today);
  }

  /** The manual-entry buttons and text `strptime` rejects leave state and draft unchanged. */
  lemma PromptsStay(draft: Draft, t: string, today: Date, isSupervisor: bool)
    requires Valid(today)
    ensures Transition(SupervisorName, draft, Text(ManualName), today, isSupervisor) == Step(SupervisorName, draft, false)
    ensures Transition(VisitDate, draft, Text(ManualDate), today, isSupervisor) == Step(VisitDate, draft, false)
    ensures Parse(t).None? && t != QuickToday && t != QuickYesterday ==>
              Transition(VisitDate, draft, Text(t), today, isSupervisor) == Step(VisitDate, draft, false)
  {
  }

  /** None of the date buttons is itself a date `strptime` accepts. */
  lemma ButtonsAreNotDates()
    ensures Parse(QuickToday).None? && Parse(QuickYesterday).None? && Parse(ManualDate).None?
  {
    assert !IsDigit(QuickToday[..4][0]);
    assert !IsDigit(QuickYesterday[..4][0]);
    assert !IsDigit(ManualDate[..4][0]);
  }

  /**
   * The three ways out without saving: `/cancel` from any running state and
   * the review's cancel button clear the draft; the cancel word at the name
   * step keeps it.
   */
  lemma CancelPaths(s: State, draft: Draft, today: Date, isSupervisor: bool)
    requires Valid(today) && s != End
    ensures Transition(s, draft, Command(CancelCommand), today, isSupervisor) == Step(End, map[], false)
    ensures Transition(ReviewReport, draft, Callback(CancelReport), today, isSupervisor) == Step(End, map[], false)
    ensures Transition(SupervisorName, draft, Text(CancelWord), today, isSupervisor) == Step(End, draft, false)
  {
  }

  /** `/report` opens the conversation for a supervisor only, and never from inside one. */
  lemma EntryOnlyFromEnd(s: State, draft: Draft, today: Date, isSupervisor: bool)
    requires Valid(today)
    ensures var step := Transition(s, draft, Command(ReportCommand), today, isSupervisor);
            if s == End && isSupervisor then step == Step(SupervisorName, draft, false)
            else step == Step(s, draft, false)
  {
  }

  /**
   * Updates no handler of the current state is registered for change
   * nothing: anything but `/report` outside the conversation, anything but
   * text or `/cancel` while a question is open, anything but a button press
   * or `/cancel` at the review.
   */
  lemma IgnoredUpdates(s: State, draft: Draft, ev: Event, today: Date, isSupervisor: bool)
    requires Valid(today)
    requires || (s == End && ev != Command(ReportCommand))
             || (s != End && s != ReviewReport && !ev.Text? && ev != Command(CancelCommand))
             || (s == ReviewReport && !ev.Callback? && ev != Command(CancelCommand))
    ensures Transition(s, draft, ev, today, isSupervisor) == Step(s, draft, false)
  {
  }

  /**
   * Only a button press at the review other than cancel saves; it then
   * ends the conversation with an empty draft. Every button whose data is
   * not `cancel_report` counts as confirming.
   */
  lemma SaveOnlyOnConfirm(s: State, draft: Draft, ev: Event, today: Date, isSupervisor: bool)
    requires Valid(today)
    ensures Transition(s, draft, ev, today, isSupervisor).save <==>
              s == ReviewReport && ev.Callback? && ev.data != CancelReport
    ensures Transition(s, draft, ev, today, isSupervisor).save ==>
              Transition(s, draft, ev, today, isSupervisor) == Step(End, map[], true)
  {
  }

  /**
   * The conversation only moves forward one step at a time: an update stays
   * in its state, moves to the next one, or ends the conversation, and
   * `/report` enters the name step. Only the review saves, and it then
   * clears the draft.
   */
  lemma TransitionForward(s: State, draft: Draft, ev: Event, today: Date, isSupervisor: bool)
    requires Valid(today)
    ensures var r := Transition(s, draft, ev, today, isSupervisor);
            r.state == s || r.state == NextState(s) || r.state == End || (s == End && r.state == SupervisorName)
    ensures var r := Transition(s, draft, ev, today, isSupervisor);
            r.save ==> s == ReviewReport && r.draft == map[]
  {
  }

  /** Every update keeps the draft consistent with the state. */
  lemma TransitionConsistent(s: State, draft: Draft, ev: Event, today: Date, isSupervisor: bool)
    requires Valid(today) && Consistent(s, draft)
    ensures var step := Transition(s, draft, ev, today, isSupervisor);
            Consistent(step.state, step.draft)
  {
    if s == VisitDate && ev.Text? {
      VisitDateText(draft, ev.text, today, isSupervisor);
      VisitDateConsistent(draft, ev.text, today);
    } else if s != End && s != ReviewReport && ev.Text? && ev != Command(CancelCommand) {
      if s == SupervisorName && (ev.text == ManualName || ev.text == CancelWord) {
      } else {
        AnswerAdvances(s, draft, ev.text, today, isSupervisor);
        AnswerConsistent(s, draft, ev.text);
      }
    }
  }

  lemma AnswerConsistent(s: State, draft: Draft, t: string)
    requires s in {SupervisorName, SchoolName, MaintenanceNotes, AcNotes, CleaningNotes}
    requires Consistent(s, draft)
    ensures Consistent(NextState(s), draft[StepKey(s) := t])
  {
    var next := draft[StepKey(s) := t];
    assert StepKey(s) != VisitDateKey;
    assert VisitDateKey in Staged(NextState(s)) ==> next[VisitDateKey] == draft[VisitDateKey];
  }

  lemma VisitDateConsistent(draft: Draft, t: string, today: Date)
    requires Valid(today) && Consistent(VisitDate, draft)
    ensures var step := GetVisitDate(draft, t, today);
            Consistent(step.state, step.draft)
  {
    if t == QuickToday {
      StageDateConsistent(draft, today);
    } else if t == QuickYesterday {
      if AddDays(today, -1).Some? {
        StageDateConsistent(draft, AddDays(today, -1).value);
      }
    } else if t != ManualDate && Parse(t).Some? {
      StageDateConsistent(draft, Parse(t).value);
    }
  }

  lemma StageDateConsistent(draft: Draft, d: Date)
    requires Valid(d) && Consistent(VisitDate, draft)
    ensures Consistent(StageDate(draft, d).state, StageDate(draft, d).draft)
  {
    assert SupervisorNameKey in StageDate(draft, d).draft;
  }

  /** A draft that reaches the review holds every field `save_report` reads. */
  lemma ReviewHasAllFields(draft: Draft)
    requires Consistent(ReviewReport, draft)
    ensures HasReportFields(draft)
  {
  }

  /** The state, draft and saved drafts after a run of updates, each save succeeding. */
  datatype Outcome = Outcome(state: State, draft: Draft, saved: seq<Draft>)

  function Run(s: State, draft: Draft, evs: seq<Event>, today: Date, isSupervisor: bool): (o: Outcome)
    requires Valid(today)
    ensures |o.saved| <= |evs|
    decreases |evs|
  {
    if |evs| == 0 then Outcome(s, draft, [])
    else
      var step := Transition(s, draft, evs[0], today, isSupervisor);
      var rest := Run(step.state, step.draft, evs[1..], today, isSupervisor);
      Outcome(rest.state, rest.draft, (if step.save then [draft] else []) + rest.saved)
  }

  /** Runs keep the draft consistent, so every saved draft holds every field. */
  lemma {:induction false} RunConsistent(s: State, draft: Draft, evs: seq<Event>, today: Date, isSupervisor: bool)
    requires Valid(today) && Consistent(s, draft)
    ensures var o := Run(s, draft, evs, today, isSupervisor);
            Consistent(o.state, o.draft)
            && forall i :: 0 <= i < |o.saved| ==> HasReportFields(o.saved[i]) && IsIsoDate(o.saved[i][VisitDateKey])
    decreases |evs|
  {
    if |evs| > 0 {
      var step := Transition(s, draft, evs[0], today, isSupervisor);
      TransitionConsistent(s, draft, evs[0], today, isSupervisor);
      RunConsistent(step.state, step.draft, evs[1..], today, isSupervisor);
      if step.save {
        SaveOnlyOnConfirm(s, draft, evs[0], today, isSupervisor);
      }
    }
  }

  /** Without a confirming button press nothing is saved. */
  lemma {:induction false} NoConfirmNoSave(s: State, draft: Draft, evs: seq<Event>, today: Date, isSupervisor: bool)
    requires Valid(today)
    requires forall i :: 0 <= i < |evs| ==> !evs[i].Callback? || evs[i].data == CancelReport
    ensures Run(s, draft, evs, today, isSupervisor).saved == []
    decreases |evs|
  {
    if |evs| > 0 {
      SaveOnlyOnConfirm(s, draft, evs[0], today, isSupervisor);
      NoConfirmNoSave(Transition(s, draft, evs[0], today, isSupervisor).state,
                      Transition(s, draft, evs[0], today, isSupervisor).draft, evs[1..], today, isSupervisor);
    }
  }

  /** A run starting with an update that saves nothing continues from that update's step. */
  lemma RunFirst(s: State, draft: Draft, ev: Event, rest: seq<Event>, today: Date, isSupervisor: bool)
    requires Valid(today) && !Transition(s, draft, ev, today, isSupervisor).save
    ensures var step := Transition(s, draft, ev, today, isSupervisor);
            Run(s, draft, [ev] + rest, today, isSupervisor) == Run(step.state, step.draft, rest, today, isSupervisor)
  {
    assert ([ev] + rest)[1..] == rest;
  }

  /** The answers after the date: school, three notes, then the confirm button. */
  lemma ReportTail(d2: Draft, school: string, maintenance: string, ac: string, cleaning: string, today: Date)
    requires Valid(today)
    ensures var e3 := [Text(school), Text(maintenance), Text(ac), Text(cleaning), Callback("confirm_report")];
            var d6 := d2[SchoolNameKey := school][MaintenanceNotesKey := maintenance][AcNotesKey := ac][CleaningNotesKey := cleaning];
            Run(SchoolName, d2, e3, today, true) == Outcome(End, map[], [d6])
  {
    var d3 := d2[SchoolNameKey := school];
    var d4 := d3[MaintenanceNotesKey := maintenance];
    var d5 := d4[AcNotesKey := ac];
    var d6 := d5[CleaningNotesKey := cleaning];
    var e7 := [Callback("confirm_report")];
    var e6 := [Text(cleaning)] + e7;
    var e5 := [Text(ac)] + e6;
    var e4 := [Text(maintenance)] + e5;
    var e3 := [Text(school)] + e4;
    assert Run(ReviewReport, d6, e7, today, true) == Outcome(End, map[], [d6]);
    RunFirst(CleaningNotes, d5, Text(cleaning), e7, today, true);
    RunFirst(AcNotes, d4, Text(ac), e6, today, true);
    RunFirst(MaintenanceNotes, d3, Text(maintenance), e5, today, true);
    RunFirst(SchoolName, d2, Text(school), e4, today, true);
    assert e3 == [Text(school), Text(maintenance), Text(ac), Text(cleaning), Callback("confirm_report")];
  }

  /** `/report`, a name and a typed date lead to the school question with both staged. */
  lemma ReportHead(draft: Draft, name: string, date: string, rest: seq<Event>, today: Date)
    requires Valid(today) && name != ManualName && name != CancelWord && Parse(date).Some?
    ensures var d2 := draft[SupervisorNameKey := name][VisitDateKey := Format(Parse(date).value)];
            Run(End, draft, [Command(ReportCommand), Text(name), Text(date)] + rest, today, true)
            == Run(SchoolName, d2, rest, today, true)
  {
    var d1 := draft[SupervisorNameKey := name];
    var e2 := [Text(date)] + rest;
    var e1 := [Text(name)] + e2;
    TypedDateAdvances(d1, date, today, true);
    RunFirst(VisitDate, d1, Text(date), rest, today, true);
    AnswerAdvances(SupervisorName, draft, name, today, true);
    RunFirst(SupervisorName, draft, Text(name), e2, today, true);
    RunFirst(End, draft, Command(ReportCommand), e1, today, true);
    assert [Command(ReportCommand), Text(name), Text(date)] + rest == [Command(ReportCommand)] + e1;
  }

  /**
   * A whole report: `/report`, a name, a typed date, the school, three
   * notes and the confirm button save exactly one report whose fields are
   * the answers (the date in ISO form), and leave End with an empty draft.
   */
  lemma FullReport(draft: Draft, name: string, date: string, school: string,
                   maintenance: string, ac: string, cleaning: string, today: Date)
    requires Valid(today) && name != ManualName && name != CancelWord && Parse(date).Some?
    ensures var evs := [Command(ReportCommand), Text(name), Text(date), Text(school),
                        Text(maintenance), Text(ac), Text(cleaning), Callback("confirm_report")];
            var o := Run(End, draft, evs, today, true);
            o.state == End && o.draft == map[] && |o.saved| == 1
            && HasReportFields(o.saved[0])
            && RowOf(o.saved[0]) == Row(name, Format(Parse(date).value), school, maintenance, ac, cleaning)
  {
    FullReportRun(draft, name, date, school, maintenance, ac, cleaning, today);
    AnswersRow(draft, name, Format(Parse(date).value), school, maintenance, ac, cleaning);
  }

  /** The eight updates of a whole report end with exactly the answered draft saved. */
  lemma FullReportRun(draft: Draft, name: string, date: string, school: string,
                      maintenance: string, ac: string, cleaning: string, today: Date)
    requires Valid(today) && name != ManualName && name != CancelWord && Parse(date).Some?
    ensures var d2 := draft[SupervisorNameKey := name][VisitDateKey := Format(Parse(date).value)];
            var d6 := d2[SchoolNameKey := school][MaintenanceNotesKey := maintenance][AcNotesKey := ac][CleaningNotesKey := cleaning];
            Run(End, draft, [Command(ReportCommand), Text(name), Text(date), Text(school),
                             Text(maintenance), Text(ac), Text(cleaning), Callback("confirm_report")], today, true)
            == Outcome(End, map[], [d6])
  {
    var d2 := draft[SupervisorNameKey := name][VisitDateKey := Format(Parse(date).value)];
    var rest := [Text(school), Text(maintenance), Text(ac), Text(cleaning), Callback("confirm_report")];
    ReportHead(draft, name, date, rest, today);
    ReportTail(d2, school, maintenance, ac, cleaning, today);
    assert [Command(ReportCommand), Text(name), Text(date)] + rest
        == [Command(ReportCommand), Text(name), Text(date), Text(school),
            Text(maintenance), Text(ac), Text(cleaning), Callback("confirm_report")];
  }

  /** A draft with all six answers staged yields the row of those answers. */
  lemma AnswersRow(draft: Draft, name: string, date: string, school: string,
                   maintenance: string, ac: string, cleaning: string)
    ensures var d6 := draft[SupervisorNameKey := name][VisitDateKey := date][SchoolNameKey := school]
                           [MaintenanceNotesKey := maintenance][AcNotesKey := ac][CleaningNotesKey := cleaning];
            HasReportFields(d6) && RowOf(d6) == Row(name, date, school, maintenance, ac, cleaning)
  {
  }

  /**
   * One user's conversation over the shared report store. `userData` is
   * the user's `context.user_data`.
   */
  class Session {
    const userId: int
    const store: ReportStore
    var state: State
    var userData: Draft

    ghost predicate Valid()
      reads this, store
    {
      store.Valid() && Consistent(state, userData)
    }

    constructor (userId: int, store: ReportStore)
      requires store.Valid()
      ensures Valid() && this.userId == userId && this.store == store
      ensures state == End && userData == map[]
    {
      this.userId := userId;
      this.store := store;
      state := End;
      userData := map[];
    }

    /**
     * One update. A step that saves first calls `save_report` with the
     * current draft; should the store be full, the raised error leaves the
     * conversation where it was.
     */
    method Handle(ev: Event, today: Date, isSupervisor: bool) returns (saved: Option<int>)
      requires Valid() && Calendar.Valid(today)
      modifies this, store
      ensures Valid()
      ensures var step := Transition(old(state), old(userData), ev, today, isSupervisor);
              !step.save ==>
                saved == None && state == step.state && userData == step.draft
                && store.records == old(store.records) && store.lastId == old(store.lastId)
      ensures var step := Transition(old(state), old(userData), ev, today, isSupervisor);
              step.save && old(store.lastId) < MaxRowId ==>
                HasReportFields(old(userData))
                && saved == Some(old(store.lastId) + 1) && state == End && userData == map[]
                && store.lastId == old(store.lastId) + 1
                && store.records == old(store.records) + [Record(old(store.lastId) + 1, userId, RowOf(old(userData)))]
      ensures var step := Transition(old(state), old(userData), ev, today, isSupervisor);
              step.save && old(store.lastId) == MaxRowId ==>
                saved == None && state == old(state) && userData == old(userData)
                && store.records == old(store.records) && store.lastId == old(store.lastId)
    {
      var step := Transition(state, userData, ev, today, isSupervisor);
      TransitionConsistent(state, userData, ev, today, isSupervisor);
      if step.save {
        SaveOnlyOnConfirm(state, userData, ev, today, isSupervisor);
        ReviewHasAllFields(userData);
        var r := store.SaveReport(userId, userData);
        if r.Ok? {
          saved := Some(r.value);
          state, userData := step.state, step.draft;
        } else {
          saved := None;
        }
      } else {
        saved := None;
        state, userData := step.state, step.draft;
      }
    }
  }
}
