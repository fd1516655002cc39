# Course deletion workflow

This project models the deletion workflow of the Moodle plugin `local_coursedeletion`.
Every course has one deletion record, made of an end date and a status.
The status is one of four phases:
- `NotScheduled`: deletion switched off.
- `Scheduled`: phase 1.
- `ScheduledNotified`: phase 2. The staging mail has gone out.
- `StagedForDeletion`: phase 3. The course sits in the staging ("trash") category.

Two entry points change a record:

- **The `workflow` task** (module `Workflow`).
  - A cron run advances each record by at most one phase, from today's date and from whether the course is in the staging category.
  - `CronStep` decides this for one record, and `CronDay` applies it to one course.
  - `Site.RunCron` runs the decision over the whole record map, applying `Visit` to one record at a time. It updates rows, moves staged courses to the staging category, deletes courses together with their records, and returns the mails to send.
- **`CourseDeletion::update_from_form`** (module `CourseDeletion`).
  - The user asks for a new date on the course's form.
  - `UpdateDecision` reconciles that date with the record's phase. It gives the changed record and the info map (`minimum_date_forced`, `trigger_mail`).
  - `CourseRecord.UpdateFromForm` applies the decision in place to the record object.

Time is counted in whole days, so `midnight(...)` is the identity. "Now" is today's day number. A midnight date counts as "before now" when it is at most today.

The configured intervals are day counts:
- `interval_until_staging` (IUS)
- `interval_before_deletion` (IBD)
- the lead of `default_course_end_date()`

What `enddate` means depends on the phase:
- In phases 1 and 2 it is the staging day. The notification mail goes out IUS days before it.
- In phase 3 it is the day the course was staged. The course is deleted IBD days after it.

Module `Scenarios` restates each test case of `tests/CourseDeletionTest.php` as a lemma, or as a client method over the classes.

## Model

| member | source | states |
|---|---|---|
| `CourseDeletion.DefaultCourseEndDate` | tests/CourseDeletionTest.php:35 | The end date a new course gets, also the date a rescheduled course gets (:265). With a valid configuration, its notification day is after the day it is computed. |
| `CourseDeletion.ScheduleFrom` | tests/CourseDeletionTest.php:62-89 | Phase 1 form rule. The result is always `Scheduled` and sends no mail. Its notification day is after today. The requested date is refused exactly when its notification day is today or earlier. A refused date is replaced by today + IUS + 1, which is forced and stored. Otherwise the requested date is stored. |
| `CourseDeletion.UpdateDecision` | tests/CourseDeletionTest.php:53-240 | `update_from_form`, case by case. Turning scheduling off gives `NotScheduled`; otherwise the result is never `NotScheduled`. Phase 1, and a course scheduled again, follow `ScheduleFrom`. Phase 2: a date not after today or not after staging is refused, the record kept and a minimum forced. A later date less than IUS past staging is taken, with the staging mail. A date a full IUS past staging restarts phase 1 by `ScheduleFrom`. Phase 3: a later date is taken with the deleted-soon mail; any other date changes nothing. Across cases: the form keeps the phase, restarts phase 1, or switches scheduling off; a forced minimum is the stored date, and mail goes only with a date taken as asked. |
| `CourseDeletion.UpdateIdempotent` | tests/CourseDeletionTest.php:125-156 | Submitting the same form twice leaves the same record as submitting it once. The second submission asks for no mail. |
| `CourseDeletion.CourseRecord.UpdateFromForm` | tests/CourseDeletionTest.php:59-67 | The record object changed in place by `update_from_form`. Its new end date and status, and the returned info, are exactly `UpdateDecision` of its old state. |
| `Workflow.CronStep` | tests/CourseDeletionTest.php:294-373 | One cron decision. A `NotScheduled` record is left alone. Deletion happens only from the staging category, at least IBD after staging. Each run moves at most one phase forward, or back to phase 1 for a staged course outside the staging category. The course moves to staging exactly when staged. The staging mail goes out exactly when notified. New boundaries are measured from today: today + IUS when notified, today when staged. |
| `Workflow.CronDay` | tests/CourseDeletionTest.php:294-336 | One run applied to one course. A deleted course stays deleted. A course is deleted only from the staging category, IBD or more after staging. The run never takes a course out of the staging category and only puts staged courses in it. After a run, every staged course is in the staging category. |
| `Workflow.StagedOnStagingDay` | tests/CourseDeletionTest.php:311-323 | A notified course is staged by a run exactly when `DateCourseWillBeStagedForDeletion` of its end date is today or earlier. It is then staged with end date today and moved to the staging category. |
| `Workflow.CronSettlesSameDay` | tests/CourseDeletionTest.php:299-323 | Under a valid configuration, a second run of the task on the same day changes nothing more. The condition matters: it needs IUS below the default lead, or a staged course rescheduled outside the staging category would be notified by the second run. |
| `Workflow.DailyFromStaged` | tests/CourseDeletionTest.php:325-335 | When the task runs every day, a staged course in the staging category stays until the day before staging + IBD. It is deleted on that day. |
| `Workflow.DailyFromNotified` | tests/CourseDeletionTest.php:311-335 | When the task runs every day, a notified course is staged on its end date and deleted IBD days later. |
| `Workflow.DailyFromScheduled` | tests/CourseDeletionTest.php:294-336 | When the task runs every day, a phase 1 course with end date E is notified on E − IUS, staged on E and deleted on E + IBD. Daily runs keep the end date the course was given. |
| `Workflow.NoticeProtectsCourse` | tests/CourseDeletionTest.php:338-373 | However late or irregular the runs, a course notified on day N survives every run before N + IUS + IBD. |
| `Workflow.FormLeavesTodayQuiet` | tests/CourseDeletionTest.php:76-79 | When the form changes a phase 1 or 2 record, the run of the task later that day leaves it alone. |
| `Workflow.FormKeepsNotice` | tests/CourseDeletionTest.php:125-140 | A form update never shortens the notice a notified or staged course has been given. |
| `Workflow.Site.AddCourse` | tests/CourseDeletionTest.php:30-36 | A new course gets a record with status `Scheduled` and the default end date. The staging category is untouched. |
| `Workflow.Site.RunCron` | tests/CourseDeletionTest.php:413-416 | One run over all records. Each record follows its own `CronDay`. A deleted course loses its record and leaves the staging category. A staged course joins the staging category. The returned mails are the decided ones. |
| `Workflow.Visit` | tests/CourseDeletionTest.php:413-416 | The run's step for one record. The record, the course and the staging category follow `CronDay` for that course, and its mail is recorded. Every other course, record and mail is unchanged. |
| `Workflow.SweepOneCourse` | tests/CourseDeletionTest.php:325-335 | On a site with a single record, a run does to that course exactly what `CronDay` says. When the decision is a deletion, both the course and its record are gone. The mails sent are that course's mail, if any. |
| `Scenarios.NotifiedFromToday` | tests/CourseDeletionTest.php:299-309 | A phase 1 record past its notification day becomes notified with end date today + IUS, and the staging mail goes out. |
| `Scenarios.TestedPhase1EndDatesNotify` | tests/CourseDeletionTest.php:38-48 | End dates 1, today − IUS and today all lead to the same notified record. |
| `Scenarios.StagedToday` | tests/CourseDeletionTest.php:359-372 | A notified record with any end date up to today is staged today. Its end date becomes today, however late the run. |
| `Scenarios.DeletedAfterStaging` | tests/CourseDeletionTest.php:325-335 | A course staged IBD days ago is deleted with its record. |
| `Scenarios.UnstagedCourseRescheduled` | tests/CourseDeletionTest.php:247-266 | A staged course outside the staging category goes back to `Scheduled` with the default end date. |
| `Scenarios.NewCourseInTrashKept` | tests/CourseDeletionTest.php:276-289 | A new scheduled course in the staging category is not deleted by a run. |
| `Scenarios.FormOnScheduledCourse` | tests/CourseDeletionTest.php:53-90 | Phase 1 form: a week earlier is kept, and so is a month later. A date a week before today + IUS forces today + IUS + 1. |
| `Scenarios.FormOnNotifiedCourse` | tests/CourseDeletionTest.php:95-187 | Phase 2 form. Dates three months or three days earlier are refused: minimum forced, record unchanged, no mail. Staging + 1 day is kept with the staging mail. Staging + IUS + 2 days restarts phase 1. A date too close is then forced again. |
| `Scenarios.FormOnStagedCourse` | tests/CourseDeletionTest.php:192-240 | Phase 3 form: three months later is kept with the deleted-soon mail. Two days earlier leaves the record as it was, with no mail. |
| `Scenarios.NewCourse` | tests/CourseDeletionTest.php:30-36 | On a new site, a new course gets exactly one record: `Scheduled`, with the default end date. |
| `Scenarios.UpdateFromFormForNewCourse` | tests/CourseDeletionTest.php:53-90 | The phase 1 form test on the record object changed in place. The stored rows are, in order: default end date − 7, default end date + a month, then today + IUS + 1. The last one is reported as a forced minimum. |
| `Scenarios.CourseDeletionCron` | tests/CourseDeletionTest.php:294-336 | The cron test on a site. The first run notifies the course, with end date today + IUS, and returns only the staging mail. The second run stages it with end date today and moves it to the staging category. The third run deletes the course and its deletion record. |

## Left out

- The Moodle database (`$DB`, `get_record`, `update_record`) is not part of this model. Stored records are the `records` map of `Site`. The record object is loaded by `CourseRecord`'s constructor.
- `create_course`, `move_courses` and `delete_course` are not part of this model. Course existence and the staging category are the sets `courses` and `trash`.
- `CourseDeletion.DateCourseWillBeStagedForDeletion` is the midnight of the end date, so on day numbers it is the identity. What the day means is stated by `Workflow.StagedOnStagingDay`.
- PHPUnit set-up and tear-down are not modelled.
- Mail delivery is not modelled. Only which mail is asked for is modelled.
- PHP's date library is not modelled: `DateTime`, time zones, `strftime`, and month lengths. Dates are day numbers. `P1M` and `P3M` are positive day counts given as parameters.
- The auto-delete flag is left out, and so are the arguments of `new CourseDeletion(null, 0)` and of `execute(true, 0)`: their meaning is not visible. Deletion is always enabled.
- A cron run on a `NotScheduled` record leaves it unchanged. The tests do not show this case, because the record in `testNoAutoDeleteTrashedCourse` is never written back.
- Turning scheduling off on the form stores the requested date with status `NotScheduled`, without checking the date. The tests do not exercise this. A record in `NotScheduled` that is scheduled again follows the phase 1 rule.
- `CourseDeletion.UpdateDecision`: the tests probe the phase 2 "back to phase 1" threshold only at staging + IUS + 2 days. The model puts the threshold at staging + IUS.
- `CourseDeletion.UpdateDecision`: a phase 2 refusal reports the unchanged end date as `minimum_date_forced`. That value is a modelling choice: tests/CourseDeletionTest.php:120 and :137 only check that the key is set.
- `CourseDeletion.UpdateDecision`: in phase 3, a request equal to the current end date is treated as no change, with no mail.
- `Workflow.CronStep`: a staged record's end date is the staging day, as tests/CourseDeletionTest.php:322 and :371 assert. The deletion day is computed from it as end date + IBD.
- `Workflow.Site.RunCron`: the order in which records are visited is not modelled. Each record's outcome depends only on that record.
