/**
 * The records the parser builds and the scheduler reads: each is a Python
 * dict with fixed keys in the source, a datatype here; the collections are
 * insertion-ordered dicts keyed by the stripped identifiers.
 */
module Entities {
  import opened Dicts

  /** A course: `course_name`, `type` (upper case), `semester`, `duration` in consecutive slots. */
  datatype Course = Course(name: string, kind: string, semester: string, duration: int)

  /** A teacher: `teacher_name`, `courses_handled`, `availability` (parsed, never consulted). */
  datatype Teacher = Teacher(name: string, coursesHandled: seq<string>, availability: seq<string>)

  /** A room: `capacity` and `type` (lower case). */
  datatype Room = Room(capacity: int, kind: string)

  /** A timeslot: `day`, `time` and `slot_index`, the position it was read at. */
  datatype Timeslot = Timeslot(day: string, time: string, slotIndex: nat)

  /** A student group: `semester` and the `courses` it takes. */
  datatype Group = Group(semester: string, courses: seq<string>)

  /** The five dicts the parser returns and the scheduler works on. */
  datatype Inputs = Inputs(
    courses: Dict<Course>,
    teachers: Dict<Teacher>,
    rooms: Dict<Room>,
    timeslots: Dict<Timeslot>,
    groups: Dict<Group>)
  {
    ghost predicate Valid()
    {
      courses.Valid() && teachers.Valid() && rooms.Valid() && timeslots.Valid() && groups.Valid()
    }
  }

  /** One placed session: `timeslot`, `teacher`, `room` and `course_id`. */
  datatype Assignment = Assignment(timeslot: string, teacher: string, room: string, courseId: string)

  /** group id -> session key -> assignment. */
  type Schedule = Dict<Dict<Assignment>>

  ghost predicate ScheduleValid(s: Schedule)
  {
    s.Valid() && forall g :: g in s.vals ==> s.vals[g].Valid()
  }
}
