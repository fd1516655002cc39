/**
 * The behaviour the course deletion tests fix, stated for every today and
 * every configuration the tests' dates make sense for. A week is 7 days;
 * a month and three months are positive day counts of their own.
 */
module Scenarios {
  import opened CourseDeletion
  import opened Workflow

  /** Phase 1 ends on the notification day, however long ago it was: the course gets a full IUS from today. */
  lemma NotifiedFromToday(enddate: int, today: int, inTrash: bool, cfg: Config)
    requires NotificationDay(enddate, cfg) <= today
    ensures CronStep(Row(enddate, Scheduled), today, inTrash, cfg) ==
              Transition(Row(today + cfg.intervalUntilStaging, ScheduledNotified), Some(WillBeStagedForDeletion), false)
  {
  }

  /** The three phase 1 end dates the tests use are all past their notification day. */
  lemma TestedPhase1EndDatesNotify(today: int, cfg: Config)
    requires cfg.Valid() && 1 <= today
    ensures forall e :: e == 1 || e == today - cfg.intervalUntilStaging || e == today ==>
              CronStep(Row(e, Scheduled), today, false, cfg) ==
                Transition(Row(today + cfg.intervalUntilStaging, ScheduledNotified), Some(WillBeStagedForDeletion), false)
  {
    forall e | e == 1 || e == today - cfg.intervalUntilStaging || e == today
      ensures CronStep(Row(e, Scheduled), today, false, cfg) ==
                Transition(Row(today + cfg.intervalUntilStaging, ScheduledNotified), Some(WillBeStagedForDeletion), false)
    {
      NotifiedFromToday(e, today, false, cfg);
    }
  }

  /** Phase 2 ends on the staging day, however long ago it was: the course is staged today, with today as its end date. */
  lemma StagedToday(enddate: int, today: int, inTrash: bool, cfg: Config)
    requires enddate <= today
    ensures CronDay(Some(Course(Row(enddate, ScheduledNotified), inTrash)), today, cfg) ==
              Some(Course(Row(today, StagedForDeletion), true))
  {
  }

  /** Phase 3 ends IBD days after staging: the course and its record are deleted. */
  lemma DeletedAfterStaging(today: int, cfg: Config)
    ensures CronDay(Some(Course(Row(today - cfg.intervalBeforeDeletion, StagedForDeletion), true)), today, cfg) == None
  {
  }

  /** A staged course found outside the staging category is scheduled again from today. */
  lemma UnstagedCourseRescheduled(enddate: int, today: int, cfg: Config)
    ensures CronStep(Row(enddate, StagedForDeletion), today, false, cfg) ==
              Transition(Row(DefaultCourseEndDate(today, cfg), Scheduled), None, false)
  {
  }

  /** A new, scheduled course is not deleted by a run, even when it sits in the staging category. */
  lemma NewCourseInTrashKept(today: int, cfg: Config)
    requires cfg.Valid()
    ensures CronStep(Row(DefaultCourseEndDate(today, cfg), Scheduled), today, true, cfg) == Unchanged
  {
  }

  /** The phase 1 form: earlier and later dates are taken as they are, a date too close forces tomorrow's notification. */
  lemma FormOnScheduledCourse(today: int, month: int, cfg: Config)
    requires cfg.Valid() && cfg.intervalUntilStaging + 7 < cfg.defaultLead && 0 < month
    ensures var base := DefaultCourseEndDate(today, cfg);
            var weekEarlier := UpdateDecision(Row(base, Scheduled), FormValues(base - 7, true), today, cfg);
            var monthLater := UpdateDecision(weekEarlier.row, FormValues(base + month, true), today, cfg);
            var tooClose := UpdateDecision(monthLater.row, FormValues(today + cfg.intervalUntilStaging - 7, true), today, cfg);
            weekEarlier.row == Row(base - 7, Scheduled) &&
            monthLater.row == Row(base + month, Scheduled) &&
            tooClose.info.minimumDateForced.Some? &&
            tooClose.row == Row(today + cfg.intervalUntilStaging + 1, Scheduled)
  {
  }

  /**
   * The phase 2 form, today seven days before staging: earlier dates are
   * refused, a slightly later one is taken with a mail, one a full IUS
   * later restarts phase 1, where a date too close is forced again.
   */
  lemma FormOnNotifiedCourse(today: int, threeMonths: int, cfg: Config)
    requires cfg.Valid() && 7 < cfg.intervalUntilStaging && 0 < threeMonths
    ensures var base := Row(today + cfg.intervalUntilStaging - 7, ScheduledNotified);
            var staging := DateCourseWillBeStagedForDeletion(base.enddate);
            var past := UpdateDecision(base, FormValues(base.enddate - threeMonths, true), today, cfg);
            var near := UpdateDecision(base, FormValues(base.enddate - 3, true), today, cfg);
            var later := UpdateDecision(base, FormValues(staging + 1, true), today, cfg);
            var far := UpdateDecision(base, FormValues(staging + cfg.intervalUntilStaging + 2, true), today, cfg);
            var tooClose := UpdateDecision(far.row, FormValues(today + cfg.intervalUntilStaging - 7, true), today, cfg);
            past.info.minimumDateForced.Some? && past.row == base && past.info.triggerMail == None &&
            near.info.minimumDateForced.Some? && near.row == base && near.info.triggerMail == None &&
            later.row == Row(staging + 1, ScheduledNotified) && later.info.triggerMail == Some(WillBeStagedForDeletion) &&
            far.row == Row(staging + cfg.intervalUntilStaging + 2, Scheduled) &&
            tooClose.info.minimumDateForced.Some? &&
            tooClose.row == Row(today + cfg.intervalUntilStaging + 1, Scheduled)
  {
  }

  /** The phase 3 form, today seven days before deletion: a later date is taken with a mail, an earlier one changes nothing. */
  lemma FormOnStagedCourse(today: int, threeMonths: int, cfg: Config)
    requires 0 < threeMonths
    ensures var base := Row(today - cfg.intervalBeforeDeletion + 7, StagedForDeletion);
            var later := UpdateDecision(base, FormValues(base.enddate + threeMonths, true), today, cfg);
            var earlier := UpdateDecision(base, FormValues(base.enddate - 2, true), today, cfg);
            later.row == Row(base.enddate + threeMonths, StagedForDeletion) &&
            later.info.triggerMail == Some(WillBeDeletedSoon) &&
            earlier.row == base && earlier.info.triggerMail == None
  {
  }

  /** The new course test: a new course gets a scheduled record with the default end date. */
  method NewCourse(id: CourseId, today: int, cfg: Config) returns (records: map<CourseId, Row>)
    ensures records == map[id := Row(DefaultCourseEndDate(today, cfg), Scheduled)]
  {
    var site := new Site();
    site.AddCourse(id, today, cfg);
    records := site.records;
  }

  /** The phase 1 form test, on the record object changed in place: the end dates stored one after the other. */
  method UpdateFromFormForNewCourse(today: int, month: int, cfg: Config) returns (stored: seq<Row>, info: Info)
    requires cfg.Valid() && cfg.intervalUntilStaging + 7 < cfg.defaultLead && 0 < month
    ensures var base := DefaultCourseEndDate(today, cfg);
            stored == [Row(base - 7, Scheduled), Row(base + month, Scheduled),
                       Row(today + cfg.intervalUntilStaging + 1, Scheduled)]
    ensures info.minimumDateForced == Some(today + cfg.intervalUntilStaging + 1)
  {
    var base := DefaultCourseEndDate(today, cfg);
    var rec := new CourseRecord(Row(base, Scheduled));
    info := rec.UpdateFromForm(FormValues(base - 7, true), today, cfg);
    stored := [rec.AsRow()];
    info := rec.UpdateFromForm(FormValues(base + month, true), today, cfg);
    stored := stored + [rec.AsRow()];
    info := rec.UpdateFromForm(FormValues(today + cfg.intervalUntilStaging - 7, true), today, cfg);
    stored := stored + [rec.AsRow()];
  }

  /** Stores `row` as the only record of the site and runs the task once. */
  method RunOnSingleRecord(site: Site, id: CourseId, row: Row, today: int, cfg: Config)
    returns (mails: map<CourseId, Mail>, after: Option<Course>)
    requires site.Valid() && id in site.courses
    modifies site
    ensures site.Valid()
    ensures after == CronDay(Some(Course(row, id in old(site.trash))), today, cfg)
    ensures site.records == (if after.Some? then map[id := after.value.row] else map[])
    ensures id in site.trash <==> after.Some? && after.value.inTrash
    ensures id in site.courses <==> after.Some?
    ensures mails == (match MailOf(map[id := row], old(site.trash), id, today, cfg) case Some(m) => map[id := m] case None => map[])
  {
    site.records := map[id := row];
    SweepOneCourse(id, row, site.trash, today, cfg);
    after := After(site.records, site.trash, id, today, cfg);
    mails := site.RunCron(today, cfg);
  }

  /**
   * The cron test: a new course is notified with the staging mail, then
   * staged into the staging category, and finally deleted with its record.
   */
  method CourseDeletionCron(id: CourseId, today: int, cfg: Config)
    returns (notice: map<CourseId, Mail>, notified: map<CourseId, Row>, staged: map<CourseId, Row>,
             stagingCategory: set<CourseId>, remaining: set<CourseId>, recordsLeft: map<CourseId, Row>)
    requires cfg.Valid()
    ensures notice == map[id := WillBeStagedForDeletion]
    ensures notified == map[id := Row(today + cfg.intervalUntilStaging, ScheduledNotified)]
    ensures staged == map[id := Row(today, StagedForDeletion)] && id in stagingCategory
    ensures id !in remaining && id !in recordsLeft
  {
    var site := new Site();
    site.AddCourse(id, today, cfg);

    var after;
    notice, after := RunOnSingleRecord(site, id, Row(today - cfg.intervalUntilStaging, Scheduled), today, cfg);
    notified := site.records;

    var mails;
    mails, after := RunOnSingleRecord(site, id, Row(today, ScheduledNotified), today, cfg);
    staged, stagingCategory := site.records, site.trash;

    mails, after := RunOnSingleRecord(site, id, Row(today - cfg.intervalBeforeDeletion, StagedForDeletion), today, cfg);
    remaining, recordsLeft := site.courses, site.records;
  }
}
