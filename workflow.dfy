/**
 * The scheduled `workflow` task: once per run it advances every course
 * record by at most one phase, from today's date and from whether the
 * course sits in the deletion staging ("trash") category.
 */
module Workflow {
  import opened CourseDeletion

  type CourseId = nat

  /** What one cron run decides for one record. */
  datatype CronOutcome =
    | Unchanged
    | Transition(row: Row, mail: Option<Mail>, moveToTrash: bool)
    | Deletion

  /** The phase a timed transition leads to. */
  function NextPhase(s: Status): Status
  {
    match s
    case Scheduled => ScheduledNotified
    case ScheduledNotified => StagedForDeletion
    case _ => s
  }

  /**
   * The decision for one record on `today`. A late run measures the next
   * phase's full lead time from today, whatever boundary it missed.
   */
  function CronStep(row: Row, today: int, inTrash: bool, cfg: Config): (r: CronOutcome)
    // a course whose deletion is not scheduled is left alone
    ensures row.status == NotScheduled ==> r.Unchanged?
    // a course is only deleted from the staging category, a full IBD after it was staged
    ensures r.Deletion? ==>
              row.status == StagedForDeletion && inTrash && DeletionDay(row.enddate, cfg) <= today
    // at most one phase forward, or back to phase 1 when a staged course left the staging category
    ensures r.Transition? ==>
              r.row.status == NextPhase(row.status) != row.status ||
              (row.status == StagedForDeletion && !inTrash && r.row == Row(DefaultCourseEndDate(today, cfg), Scheduled))
    // the course is moved to the staging category exactly when it is staged
    ensures r.Transition? ==> (r.moveToTrash <==> r.row.status == StagedForDeletion)
    // the staging mail goes out exactly when the course is notified
    ensures r.Transition? ==>
              (r.mail.Some? <==> r.row.status == ScheduledNotified) &&
              (r.mail.Some? ==> r.mail.value == WillBeStagedForDeletion)
    // new boundaries are measured from today, never from the missed one
    ensures r.Transition? && r.row.status == ScheduledNotified ==>
              DateCourseWillBeStagedForDeletion(r.row.enddate) == today + cfg.intervalUntilStaging
    ensures r.Transition? && r.row.status == StagedForDeletion ==> r.row.enddate == today
  {
    match row.status
    case NotScheduled => Unchanged
    case Scheduled =>
      if NotificationDay(row.enddate, cfg) <= today then
        Transition(Row(today + cfg.intervalUntilStaging, ScheduledNotified), Some(WillBeStagedForDeletion), false)
      else
        Unchanged
    case ScheduledNotified =>
      if DateCourseWillBeStagedForDeletion(row.enddate) <= today then
        Transition(Row(today, StagedForDeletion), None, true)
      else
        Unchanged
    case StagedForDeletion =>
      if !inTrash then
        Transition(Row(DefaultCourseEndDate(today, cfg), Scheduled), None, false)
      else if DeletionDay(row.enddate, cfg) <= today then
        Deletion
      else
        Unchanged
  }

  /** A course as the workflow sees it: its record and whether it is in the staging category. */
  datatype Course = Course(row: Row, inTrash: bool)

  /** One cron run applied to one course; `None` is a course deleted together with its record. */
  function CronDay(c: Option<Course>, today: int, cfg: Config): (r: Option<Course>)
    // a deleted course stays deleted
    ensures c.None? ==> r.None?
    // a course is only deleted from the staging category, a full IBD after it was staged
    ensures c.Some? && r.None? ==>
              c.value.row.status == StagedForDeletion && c.value.inTrash && DeletionDay(c.value.row.enddate, cfg) <= today
    // the task never takes a course out of the staging category, and only puts staged courses in it
    ensures c.Some? && r.Some? ==>
              (c.value.inTrash ==> r.value.inTrash) &&
              (r.value.inTrash && !c.value.inTrash ==> r.value.row.status == StagedForDeletion)
    // after a run, a staged course sits in the staging category
    ensures r.Some? && r.value.row.status == StagedForDeletion ==> r.value.inTrash
  {
    match c
    case None => None
    case Some(course) =>
      match CronStep(course.row, today, course.inTrash, cfg)
      case Unchanged => c
      case Transition(row, _, move) => Some(Course(row, course.inTrash || move))
      case Deletion => None
  }

  /** Cron runs on the given days, in order. */
  function Replay(c: Option<Course>, days: seq<int>, cfg: Config): Option<Course>
    decreases |days|
  {
    if days == [] then c else Replay(CronDay(c, days[0], cfg), days[1..], cfg)
  }

  /** The `n` consecutive days from `from` on. */
  function DayRange(from: int, n: nat): seq<int>
  {
    seq(n, i => from + i)
  }

  /**
   * Running the task again on the same day changes nothing: every new
   * boundary a run sets lies after today.
   */
  lemma CronSettlesSameDay(c: Course, today: int, cfg: Config)
    requires cfg.Valid()
    ensures var once := CronDay(Some(c), today, cfg);
            CronDay(once, today, cfg) == once
  {
  }

  lemma {:induction false} ReplayDeleted(days: seq<int>, cfg: Config)
    ensures Replay(None, days, cfg) == None
    decreases |days|
  {
    if days != [] {
      ReplayDeleted(days[1..], cfg);
    }
  }

  lemma DayRangeTail(from: int, n: nat)
    requires 0 < n
    ensures DayRange(from, n)[0] == from && DayRange(from, n)[1..] == DayRange(from + 1, n - 1)
  {
  }

  /** A notified course is staged by the first run on or after its staging day, and by no earlier one. */
  lemma StagedOnStagingDay(enddate: int, today: int, inTrash: bool, cfg: Config)
    ensures var r := CronStep(Row(enddate, ScheduledNotified), today, inTrash, cfg);
            (r.Transition? <==> DateCourseWillBeStagedForDeletion(enddate) <= today) &&
            (r.Transition? ==> r.row == Row(today, StagedForDeletion) && r.moveToTrash)
  {
  }

  /**
   * With the task running every day, a staged course in the staging
   * category is deleted on the IBD-th day after it was staged, not before.
   */
  lemma {:induction false} DailyFromStaged(staged: int, from: int, n: nat, cfg: Config)
    requires cfg.Valid() && staged <= from
    ensures var c := Course(Row(staged, StagedForDeletion), true);
            Replay(Some(c), DayRange(from, n), cfg) ==
              if n == 0 || from + n <= DeletionDay(staged, cfg) then Some(c) else None
    decreases n
  {
    if n > 0 {
      var c := Course(Row(staged, StagedForDeletion), true);
      DayRangeTail(from, n);
      if from < DeletionDay(staged, cfg) {
        assert CronDay(Some(c), from, cfg) == Some(c);
        DailyFromStaged(staged, from + 1, n - 1, cfg);
      } else {
        assert CronDay(Some(c), from, cfg) == None;
        ReplayDeleted(DayRange(from + 1, n - 1), cfg);
      }
    }
  }

  /**
   * With the task running every day, a notified course is staged on its end
   * date and deleted IBD days later.
   */
  lemma {:induction false} DailyFromNotified(staging: int, inTrash: bool, from: int, n: nat, cfg: Config)
    requires cfg.Valid() && from <= staging
    ensures var c := Course(Row(staging, ScheduledNotified), inTrash);
            Replay(Some(c), DayRange(from, n), cfg) ==
              if from + n <= staging then Some(c)
              else if from + n <= DeletionDay(staging, cfg) then Some(Course(Row(staging, StagedForDeletion), true))
              else None
    decreases n
  {
    if n > 0 {
      var c := Course(Row(staging, ScheduledNotified), inTrash);
      DayRangeTail(from, n);
      if from < staging {
        assert CronDay(Some(c), from, cfg) == Some(c);
        DailyFromNotified(staging, inTrash, from + 1, n - 1, cfg);
      } else {
        assert CronDay(Some(c), from, cfg) == Some(Course(Row(staging, StagedForDeletion), true));
        DailyFromStaged(staging, from + 1, n - 1, cfg);
      }
    }
  }

  /**
   * With the task running every day, a course in phase 1 is notified IUS
   * days before its end date, staged on its end date and deleted IBD days
   * after it: evaluated day by day, the workflow keeps the end date the
   * course was given.
   */
  lemma {:induction false} DailyFromScheduled(enddate: int, inTrash: bool, from: int, n: nat, cfg: Config)
    requires cfg.Valid() && from <= NotificationDay(enddate, cfg)
    ensures var c := Course(Row(enddate, Scheduled), inTrash);
            Replay(Some(c), DayRange(from, n), cfg) ==
              if from + n <= NotificationDay(enddate, cfg) then Some(c)
              else if from + n <= enddate then Some(Course(Row(enddate, ScheduledNotified), inTrash))
              else if from + n <= DeletionDay(enddate, cfg) then Some(Course(Row(enddate, StagedForDeletion), true))
              else None
    decreases n
  {
    if n > 0 {
      var c := Course(Row(enddate, Scheduled), inTrash);
      DayRangeTail(from, n);
      if from < NotificationDay(enddate, cfg) {
        assert CronDay(Some(c), from, cfg) == Some(c);
        DailyFromScheduled(enddate, inTrash, from + 1, n - 1, cfg);
      } else {
        assert CronDay(Some(c), from, cfg) == Some(Course(Row(enddate, ScheduledNotified), inTrash));
        DailyFromNotified(enddate, inTrash, from + 1, n - 1, cfg);
      }
    }
  }

  /**
   * What a course notified on day `notified` still promises: in phase 2 or
   * 3 its end date lies at least IUS after the notification.
   */
  predicate NoticeKept(c: Course, notified: int, cfg: Config)
  {
    (c.row.status == ScheduledNotified || c.row.status == StagedForDeletion) ==>
      c.row.enddate >= notified + cfg.intervalUntilStaging
  }

  /**
   * However late or irregular the runs of the task, a course notified on day
   * `notified` survives every run before day `notified + IUS + IBD`: it keeps
   * the full notice period and the full time in the staging category.
   */
  lemma {:induction false} NoticeProtectsCourse(c: Course, notified: int, days: seq<int>, cfg: Config)
    requires cfg.Valid() && NoticeKept(c, notified, cfg)
    requires forall i :: 0 <= i < |days| ==>
               notified <= days[i] < notified + cfg.intervalUntilStaging + cfg.intervalBeforeDeletion
    ensures Replay(Some(c), days, cfg).Some?
    decreases |days|
  {
    if days != [] {
      var next := CronDay(Some(c), days[0], cfg);
      assert next.Some? && NoticeKept(next.value, notified, cfg);
      NoticeProtectsCourse(next.value, notified, days[1..], cfg);
    }
  }

  /**
   * A date the form takes for phase 1 or 2 is never due on the same day: the
   * run of the task that follows the form on that day leaves the record alone.
   */
  lemma FormLeavesTodayQuiet(row: Row, form: FormValues, today: int, inTrash: bool, cfg: Config)
    requires form.scheduleDeletion
    ensures var r := UpdateDecision(row, form, today, cfg).row;
            r != row && (r.status == Scheduled || r.status == ScheduledNotified) ==>
              CronStep(r, today, inTrash, cfg) == Unchanged
  {
  }

  /** The form never shortens a notice already given: what a notified course was promised, it keeps. */
  lemma FormKeepsNotice(c: Course, form: FormValues, notified: int, today: int, cfg: Config)
    requires NoticeKept(c, notified, cfg)
    ensures NoticeKept(Course(UpdateDecision(c.row, form, today, cfg).row, c.inTrash), notified, cfg)
  {
  }

  /** The state of one record-holding course after a run of the task. */
  function After(records: map<CourseId, Row>, trash: set<CourseId>, id: CourseId, today: int, cfg: Config): Option<Course>
    requires id in records
  {
    CronDay(Some(Course(records[id], id in trash)), today, cfg)
  }

  /** The records left after a run: deleted courses lose theirs, the others get their new row. */
  function SweptRecords(records: map<CourseId, Row>, trash: set<CourseId>, today: int, cfg: Config): map<CourseId, Row>
  {
    map id | id in records && After(records, trash, id, today, cfg).Some? :: After(records, trash, id, today, cfg).value.row
  }

  /** The courses a run deletes. */
  function DeletedCourses(records: map<CourseId, Row>, trash: set<CourseId>, today: int, cfg: Config): set<CourseId>
  {
    set id | id in records && After(records, trash, id, today, cfg).None?
  }

  /** The staging category after a run: staged courses join it, deleted ones leave it. */
  function SweptTrash(records: map<CourseId, Row>, trash: set<CourseId>, today: int, cfg: Config): set<CourseId>
  {
    (trash - records.Keys) +
    set id | id in records && After(records, trash, id, today, cfg).Some? && After(records, trash, id, today, cfg).value.inTrash
  }

  /** The mail a run asks to be sent for a course, if any. */
  function MailOf(records: map<CourseId, Row>, trash: set<CourseId>, id: CourseId, today: int, cfg: Config): Option<Mail>
    requires id in records
  {
    match CronStep(records[id], today, id in trash, cfg)
    case Transition(_, mail, _) => mail
    case _ => None
  }

  /** The mails a run asks to be sent, per course. */
  function SweptMails(records: map<CourseId, Row>, trash: set<CourseId>, today: int, cfg: Config): map<CourseId, Mail>
  {
    map id | id in records && MailOf(records, trash, id, today, cfg).Some? :: MailOf(records, trash, id, today, cfg).value
  }

  /** On a site with one record, a run does to that course exactly what `CronDay` says, and sends its mail. */
  lemma SweepOneCourse(id: CourseId, row: Row, trash: set<CourseId>, today: int, cfg: Config)
    ensures var records := map[id := row];
            var a := After(records, trash, id, today, cfg);
            SweptRecords(records, trash, today, cfg) == (if a.Some? then map[id := a.value.row] else map[]) &&
            DeletedCourses(records, trash, today, cfg) == (if a.Some? then {} else {id}) &&
            SweptTrash(records, trash, today, cfg) == (trash - {id}) + (if a.Some? && a.value.inTrash then {id} else {}) &&
            SweptMails(records, trash, today, cfg) ==
              (match MailOf(records, trash, id, today, cfg) case Some(m) => map[id := m] case None => map[])
  {
  }

  /** A run has dealt with record `id`: the course, its record, the staging category and the mails agree with `After`. */
  ghost predicate Visited(records0: map<CourseId, Row>, trash0: set<CourseId>, id: CourseId, today: int, cfg: Config,
                          records: map<CourseId, Row>, trash: set<CourseId>, courses: set<CourseId>, mails: map<CourseId, Mail>)
    requires id in records0
  {
    var a := After(records0, trash0, id, today, cfg);
    var m := MailOf(records0, trash0, id, today, cfg);
    (id in records <==> a.Some?) && (id in courses <==> a.Some?) &&
    (id in records ==> records[id] == a.value.row) &&
    (id in trash <==> a.Some? && a.value.inTrash) &&
    (id in mails <==> m.Some?) && (id in mails ==> mails[id] == m.value)
  }

  /**
   * Part way through a run: the records in `todo` are as they were, every
   * other record is dealt with, and courses without a record are untouched.
   */
  ghost predicate SweepInvariant(records0: map<CourseId, Row>, trash0: set<CourseId>, courses0: set<CourseId>,
                                 todo: set<CourseId>, today: int, cfg: Config,
                                 records: map<CourseId, Row>, trash: set<CourseId>, courses: set<CourseId>, mails: map<CourseId, Mail>)
  {
    && todo <= records.Keys <= records0.Keys
    && mails.Keys <= records0.Keys - todo
    && records.Keys <= courses && trash <= courses
    && (forall id :: id in todo ==> records[id] == records0[id] && (id in trash <==> id in trash0))
    && (forall id :: id in records0 && id !in todo ==> Visited(records0, trash0, id, today, cfg, records, trash, courses, mails))
    && (forall id :: id !in records0 ==> (id in trash <==> id in trash0) && (id in courses <==> id in courses0))
  }

  /** The records, staging category, courses and mails of a site part way through a run. */
  datatype SiteState = SiteState(records: map<CourseId, Row>, trash: set<CourseId>, courses: set<CourseId>, mails: map<CourseId, Mail>)

  /** The site after the run's decision for the record of course `id` is carried out. */
  function Visit(id: CourseId, today: int, cfg: Config,
                 records: map<CourseId, Row>, trash: set<CourseId>, courses: set<CourseId>, mails: map<CourseId, Mail>)
    : (r: SiteState)
    requires id in records
    // the record, the course and its place in the staging category follow `CronDay`
    ensures var a := After(records, trash, id, today, cfg);
            (id in r.records <==> a.Some?) && (id in r.records ==> r.records[id] == a.value.row) &&
            (id in r.trash <==> a.Some? && a.value.inTrash) &&
            (id in r.courses <==> id in courses && a.Some?)
    // the decided mail is recorded for the course
    ensures var m := MailOf(records, trash, id, today, cfg);
            (m.Some? ==> id in r.mails && r.mails[id] == m.value) &&
            (m.None? ==> r.mails == mails)
    // nothing else changes
    ensures forall x :: x != id ==> (x in r.records <==> x in records) && (x in r.records ==> r.records[x] == records[x])
    ensures forall x :: x != id ==> (x in r.trash <==> x in trash) && (x in r.courses <==> x in courses)
    ensures forall x :: x != id ==> (x in r.mails <==> x in mails) && (x in r.mails ==> r.mails[x] == mails[x])
  {
    match CronStep(records[id], today, id in trash, cfg)
    case Unchanged => SiteState(records, trash, courses, mails)
    case Transition(next, mail, move) =>
      SiteState(records[id := next],
                if move then trash + {id} else trash,
                courses,
                if mail.Some? then mails[id := mail.value] else mails)
    case Deletion => SiteState(records - {id}, trash - {id}, courses - {id}, mails)
  }

  lemma VisitKeepsInvariant(records0: map<CourseId, Row>, trash0: set<CourseId>, courses0: set<CourseId>,
                            todo: set<CourseId>, id: CourseId, today: int, cfg: Config,
                            records: map<CourseId, Row>, trash: set<CourseId>, courses: set<CourseId>, mails: map<CourseId, Mail>)
    requires SweepInvariant(records0, trash0, courses0, todo, today, cfg, records, trash, courses, mails)
    requires id in todo
    ensures var r := Visit(id, today, cfg, records, trash, courses, mails);
            SweepInvariant(records0, trash0, courses0, todo - {id}, today, cfg, r.records, r.trash, r.courses, r.mails)
  {
    var r := Visit(id, today, cfg, records, trash, courses, mails);
    forall x | x in records0 && x !in todo - {id}
      ensures Visited(records0, trash0, x, today, cfg, r.records, r.trash, r.courses, r.mails)
    {
      if x != id {
        assert Visited(records0, trash0, x, today, cfg, records, trash, courses, mails);
      }
    }
  }

  /** Once every record is dealt with, the site is the swept one. */
  lemma SweepComplete(records0: map<CourseId, Row>, trash0: set<CourseId>, courses0: set<CourseId>, today: int, cfg: Config,
                      records: map<CourseId, Row>, trash: set<CourseId>, courses: set<CourseId>, mails: map<CourseId, Mail>)
    requires records0.Keys <= courses0
    requires SweepInvariant(records0, trash0, courses0, {}, today, cfg, records, trash, courses, mails)
    ensures records == SweptRecords(records0, trash0, today, cfg)
    ensures trash == SweptTrash(records0, trash0, today, cfg)
    ensures courses == courses0 - DeletedCourses(records0, trash0, today, cfg)
    ensures mails == SweptMails(records0, trash0, today, cfg)
  {
    SweptRecordsReached(records0, trash0, courses0, today, cfg, records, trash, courses, mails);
    SweptTrashReached(records0, trash0, courses0, today, cfg, records, trash, courses, mails);
    SweptCoursesReached(records0, trash0, courses0, today, cfg, records, trash, courses, mails);
    SweptMailsReached(records0, trash0, courses0, today, cfg, records, trash, courses, mails);
  }

  /** The records part of `SweepComplete`. */
  lemma SweptRecordsReached(records0: map<CourseId, Row>, trash0: set<CourseId>, courses0: set<CourseId>, today: int, cfg: Config,
                      records: map<CourseId, Row>, trash: set<CourseId>, courses: set<CourseId>, mails: map<CourseId, Mail>)
    requires SweepInvariant(records0, trash0, courses0, {}, today, cfg, records, trash, courses, mails)
    ensures records == SweptRecords(records0, trash0, today, cfg)
  {
  }

  /** The staging category part of `SweepComplete`. */
  lemma SweptTrashReached(records0: map<CourseId, Row>, trash0: set<CourseId>, courses0: set<CourseId>, today: int, cfg: Config,
                      records: map<CourseId, Row>, trash: set<CourseId>, courses: set<CourseId>, mails: map<CourseId, Mail>)
    requires SweepInvariant(records0, trash0, courses0, {}, today, cfg, records, trash, courses, mails)
    ensures trash == SweptTrash(records0, trash0, today, cfg)
  {
  }

  /** The courses part of `SweepComplete`. */
  lemma SweptCoursesReached(records0: map<CourseId, Row>, trash0: set<CourseId>, courses0: set<CourseId>, today: int, cfg: Config,
                      records: map<CourseId, Row>, trash: set<CourseId>, courses: set<CourseId>, mails: map<CourseId, Mail>)
    requires records0.Keys <= courses0
    requires SweepInvariant(records0, trash0, courses0, {}, today, cfg, records, trash, courses, mails)
    ensures courses == courses0 - DeletedCourses(records0, trash0, today, cfg)
  {
  }

  /** The mails part of `SweepComplete`. */
  lemma SweptMailsReached(records0: map<CourseId, Row>, trash0: set<CourseId>, courses0: set<CourseId>, today: int, cfg: Config,
                      records: map<CourseId, Row>, trash: set<CourseId>, courses: set<CourseId>, mails: map<CourseId, Mail>)
    requires SweepInvariant(records0, trash0, courses0, {}, today, cfg, records, trash, courses, mails)
    ensures mails == SweptMails(records0, trash0, today, cfg)
  {
  }

  /**
   * The courses of the site, the staging category and the course deletion
   * records, as the `workflow` task reads and writes them.
   */
  class Site {
    var courses: set<CourseId>
    var trash: set<CourseId>
    var records: map<CourseId, Row>

    /** A record belongs to an existing course, and so does every course in the staging category. */
    ghost predicate Valid()
      reads this
    {
      records.Keys <= courses && trash <= courses
    }

    constructor ()
      ensures Valid() && courses == {} && trash == {} && records == map[]
    {
      courses, trash, records := {}, {}, map[];
    }

    /** A new course gets its record: scheduled, with the default end date. */
    method AddCourse(id: CourseId, today: int, cfg: Config)
      requires Valid() && id !in courses
      modifies this
      ensures Valid() && courses == old(courses) + {id} && trash == old(trash)
      ensures records == old(records)[id := Row(DefaultCourseEndDate(today, cfg), Scheduled)]
    {
      courses := courses + {id};
      records := records[id := Row(DefaultCourseEndDate(today, cfg), Scheduled)];
    }

    /**
     * One run of the task on `today`: every record is advanced by its own
     * decision, and the mails to send are returned per course.
     */
    method RunCron(today: int, cfg: Config) returns (mails: map<CourseId, Mail>)
      requires Valid()
      modifies this
      ensures Valid()
      ensures records == SweptRecords(old(records), old(trash), today, cfg)
      ensures trash == SweptTrash(old(records), old(trash), today, cfg)
      ensures courses == old(courses) - DeletedCourses(old(records), old(trash), today, cfg)
      ensures mails == SweptMails(old(records), old(trash), today, cfg)
    {
      ghost var records0, trash0, courses0 := records, trash, courses;
      var todo := records.Keys;
      mails := map[];
      while todo != {}
        invariant SweepInvariant(records0, trash0, courses0, todo, today, cfg, records, trash, courses, mails)
        decreases todo
      {
        var id :| id in todo;
        VisitKeepsInvariant(records0, trash0, courses0, todo, id, today, cfg, records, trash, courses, mails);
        var r := Visit(id, today, cfg, records, trash, courses, mails);
        records, trash, courses, mails := r.records, r.trash, r.courses, r.mails;
        todo := todo - {id};
      }
      SweepComplete(records0, trash0, courses0, today, cfg, records, trash, courses, mails);
    }
  }
}
