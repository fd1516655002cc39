/**
 * The deletion workflow of one course: its four statuses, the configured
 * lead times, and how a date the user asks for on the course's deletion
 * form is reconciled with the phase the course is in (`update_from_form`).
 *
 * Time is counted in whole days: a date is the number of its day, so the
 * midnight of a date is the date itself and "now" is today's day number.
 * Because "now" lies somewhere inside today, a midnight date is "before now"
 * exactly when it is at most today.
 */
module CourseDeletion {

  datatype Option<T> = None | Some(value: T)

  /** Phase 0 (opted out), phase 1, phase 2 and phase 3 of the workflow. */
  datatype Status = NotScheduled | Scheduled | ScheduledNotified | StagedForDeletion

  /** The mails the workflow can ask to be sent. */
  datatype Mail = WillBeStagedForDeletion | WillBeDeletedSoon

  /**
   * Configured lead times, in days: the time between the notification mail
   * and staging (IUS), the time a staged course stays in the staging
   * category before it is deleted (IBD), and how far ahead of its creation
   * day a new course is scheduled to be staged.
   */
  datatype Config = Config(intervalUntilStaging: int, intervalBeforeDeletion: int, defaultLead: int)
  {
    /** Both intervals are positive, and a new course is not notified on the day it is created. */
    predicate Valid()
    {
      0 < intervalUntilStaging && 0 < intervalBeforeDeletion && intervalUntilStaging < defaultLead
    }
  }

  /**
   * The stored record of one course. In phases 1 and 2 `enddate` is the day
   * the course is to be staged; in phase 3 it is the day it was staged.
   */
  datatype Row = Row(enddate: int, status: Status)

  /** What the deletion form submits: the requested date and whether deletion is scheduled at all. */
  datatype FormValues = FormValues(deletionStageDate: int, scheduleDeletion: bool)

  /** The info map `update_from_form` returns beside changing the record. */
  datatype Info = Info(minimumDateForced: Option<int>, triggerMail: Option<Mail>)

  /** A form update: the record as changed, and the info returned with it. */
  datatype Update = Update(row: Row, info: Info)

  /** The end date a new course gets, `default_course_end_date()` evaluated today. */
  function DefaultCourseEndDate(today: int, cfg: Config): (d: int)
    // a new course is not notified on the day it is created
    ensures cfg.Valid() ==> today < NotificationDay(d, cfg)
  {
    today + cfg.defaultLead
  }

  /** The day the course will be moved to the staging category, for a phase 1 or 2 end date. */
  function DateCourseWillBeStagedForDeletion(enddate: int): int
  {
    enddate
  }

  /** The day the notification mail goes out, for a phase 1 end date. */
  function NotificationDay(enddate: int, cfg: Config): int
  {
    DateCourseWillBeStagedForDeletion(enddate) - cfg.intervalUntilStaging
  }

  /** The day a staged course is deleted, for a phase 3 end date. */
  function DeletionDay(enddate: int, cfg: Config): int
  {
    enddate + cfg.intervalBeforeDeletion
  }

  /**
   * Phase 1 rule: the requested date is taken as it is unless its
   * notification day is already reached; then the earliest date whose
   * notification falls on tomorrow is forced instead.
   */
  function ScheduleFrom(requested: int, today: int, cfg: Config): (u: Update)
    ensures u.row.status == Scheduled && u.info.triggerMail == None
    ensures NotificationDay(u.row.enddate, cfg) > today
    ensures u.info.minimumDateForced == None <==> u.row.enddate == requested
    // the requested date is refused exactly when its notification day is already reached
    ensures u.info.minimumDateForced.Some? <==> NotificationDay(requested, cfg) <= today
    ensures u.info.minimumDateForced.Some? ==>
              u.info.minimumDateForced.value == u.row.enddate == today + cfg.intervalUntilStaging + 1
  {
    if NotificationDay(requested, cfg) <= today then
      var forced := today + cfg.intervalUntilStaging + 1;
      Update(Row(forced, Scheduled), Info(Some(forced), None))
    else
      Update(Row(requested, Scheduled), Info(None, None))
  }

  /**
   * `update_from_form`: the record after the user asked for
   * `form.deletionStageDate`, and the info map that goes with it.
   */
  function UpdateDecision(row: Row, form: FormValues, today: int, cfg: Config): (r: Update)
    // the form keeps the phase, restarts phase 1, or switches scheduling off
    ensures r.row.status == row.status || r.row.status == Scheduled || r.row.status == NotScheduled
    ensures !form.scheduleDeletion ==> r.row == Row(form.deletionStageDate, NotScheduled) && r.info == Info(None, None)
    ensures form.scheduleDeletion ==> r.row.status != NotScheduled
    // phase 1, and a course scheduled again, follow the phase 1 rule
    ensures form.scheduleDeletion && (row.status == NotScheduled || row.status == Scheduled) ==>
              r == ScheduleFrom(form.deletionStageDate, today, cfg)
    // phase 2: a date not after today or not after staging is refused, the record kept
    ensures form.scheduleDeletion && row.status == ScheduledNotified &&
            (form.deletionStageDate <= today || form.deletionStageDate <= DateCourseWillBeStagedForDeletion(row.enddate)) ==>
              r == Update(row, Info(Some(row.enddate), None))
    // phase 2: a later date less than IUS past staging postpones staging, with the staging mail
    ensures form.scheduleDeletion && row.status == ScheduledNotified && today < form.deletionStageDate &&
            DateCourseWillBeStagedForDeletion(row.enddate) < form.deletionStageDate <
              DateCourseWillBeStagedForDeletion(row.enddate) + cfg.intervalUntilStaging ==>
              r == Update(Row(form.deletionStageDate, ScheduledNotified), Info(None, Some(WillBeStagedForDeletion)))
    // phase 2: a date a full IUS past staging restarts phase 1
    ensures form.scheduleDeletion && row.status == ScheduledNotified && today < form.deletionStageDate &&
            DateCourseWillBeStagedForDeletion(row.enddate) + cfg.intervalUntilStaging <= form.deletionStageDate &&
            DateCourseWillBeStagedForDeletion(row.enddate) < form.deletionStageDate ==>
              r == ScheduleFrom(form.deletionStageDate, today, cfg)
    // phase 3: a later date postpones deletion, with the deleted-soon mail; any other date changes nothing
    ensures form.scheduleDeletion && row.status == StagedForDeletion && row.enddate < form.deletionStageDate ==>
              r == Update(Row(form.deletionStageDate, StagedForDeletion), Info(None, Some(WillBeDeletedSoon)))
    ensures form.scheduleDeletion && row.status == StagedForDeletion && form.deletionStageDate <= row.enddate ==>
              r == Update(row, Info(None, None))
    // a forced minimum is what is stored: the record kept as it was, or the phase 1 minimum
    ensures r.info.minimumDateForced.Some? ==>
              r.info.minimumDateForced.value == r.row.enddate &&
              (r.row == row || r.row == Row(today + cfg.intervalUntilStaging + 1, Scheduled))
    // a mail is only asked for when the requested date was taken as it is
    ensures r.info.triggerMail.Some? ==> r.row.enddate == form.deletionStageDate && r.info.minimumDateForced == None
    // after the form, a course in phase 1 is notified tomorrow at the earliest
    ensures form.scheduleDeletion && r.row.status == Scheduled ==> NotificationDay(r.row.enddate, cfg) > today
    // phase 2: staging is only ever postponed, and the staging mail goes out exactly when it is
    ensures form.scheduleDeletion && row.status == ScheduledNotified && r.row.status == ScheduledNotified ==>
              r.row.enddate >= row.enddate &&
              (r.info.triggerMail == Some(WillBeStagedForDeletion) <==> r.row.enddate != row.enddate)
    // phase 2: the course goes back to phase 1 exactly when the new date lies a full IUS past staging
    ensures form.scheduleDeletion && row.status == ScheduledNotified ==>
              (r.row.status == Scheduled <==>
                 today < form.deletionStageDate && row.enddate < form.deletionStageDate &&
                 DateCourseWillBeStagedForDeletion(row.enddate) + cfg.intervalUntilStaging <= form.deletionStageDate)
    // phase 3: the course stays staged, deletion is only ever postponed, and the mail goes out exactly when it is
    ensures form.scheduleDeletion && row.status == StagedForDeletion ==>
              r.row.status == StagedForDeletion && r.row.enddate >= row.enddate &&
              r.info.minimumDateForced == None &&
              (r.info.triggerMail == Some(WillBeDeletedSoon) <==> r.row.enddate != row.enddate)
  {
    var date := form.deletionStageDate;
    if !form.scheduleDeletion then
      Update(Row(date, NotScheduled), Info(None, None))
    else
      match row.status
      case NotScheduled => ScheduleFrom(date, today, cfg)
      case Scheduled => ScheduleFrom(date, today, cfg)
      case ScheduledNotified =>
        var staging := DateCourseWillBeStagedForDeletion(row.enddate);
        if date <= today || date <= staging then
          Update(row, Info(Some(row.enddate), None))
        else if staging + cfg.intervalUntilStaging <= date then
          ScheduleFrom(date, today, cfg)
        else
          Update(Row(date, ScheduledNotified), Info(None, Some(WillBeStagedForDeletion)))
      case StagedForDeletion =>
        if row.enddate < date then
          Update(Row(date, StagedForDeletion), Info(None, Some(WillBeDeletedSoon)))
        else
          Update(row, Info(None, None))
  }

  /**
   * Submitting the same form twice ends with the same record as submitting
   * it once, and the second submission asks for no mail.
   */
  lemma UpdateIdempotent(row: Row, form: FormValues, today: int, cfg: Config)
    ensures var once := UpdateDecision(row, form, today, cfg);
            var twice := UpdateDecision(once.row, form, today, cfg);
            twice.row == once.row && twice.info.triggerMail == None
  {
  }

  /** The course record `update_from_form` changes in place. */
  class CourseRecord {
    var enddate: int
    var status: Status

    /** Loads the record from its stored row. */
    constructor (row: Row)
      ensures AsRow() == row
    {
      enddate := row.enddate;
      status := row.status;
    }

    function AsRow(): Row
      reads this
    {
      Row(enddate, status)
    }

    /** Reconciles the requested date with the record's phase, changing the record in place. */
    method UpdateFromForm(form: FormValues, today: int, cfg: Config) returns (info: Info)
      modifies this
      ensures Update(AsRow(), info) == UpdateDecision(old(AsRow()), form, today, cfg)
    {
      var date := form.deletionStageDate;
      info := Info(None, None);
      if !form.scheduleDeletion {
        enddate, status := date, NotScheduled;
      } else if status == StagedForDeletion {
        if enddate < date {
          enddate := date;
          info := Info(None, Some(WillBeDeletedSoon));
        }
      } else if status == ScheduledNotified && (date <= today || date <= enddate) {
        info := Info(Some(enddate), None);
      } else if status == ScheduledNotified && date < enddate + cfg.intervalUntilStaging {
        enddate := date;
        info := Info(None, Some(WillBeStagedForDeletion));
      } else {
        // phase 1, a course scheduled again, or a phase 2 date far enough out to restart
        status := Scheduled;
        if date - cfg.intervalUntilStaging <= today {
          enddate := today + cfg.intervalUntilStaging + 1;
          info := Info(Some(enddate), None);
        } else {
          enddate := date;
        }
      }
    }
  }
}
