/**
 * The rows of the Oracle tables the handlers write, each table as a finite map
 * from its key to its row (or a set, for the pure association table), and the
 * consistency the handlers keep between them.
 */
module Tables {
  import opened Wrappers
  import opened JsValues
  import opened ScheduleBatch

  /** A TEACHERS row. */
  datatype Teacher = Teacher(
    firstName: Value, lastName: Value, phone: Value, gender: Value,
    image: Value, subject: Value, golden: Value, youtubeUrl: Value)

  /** A USERS row; the password hash is not modelled. */
  datatype User = User(username: string, role: string, teacher: int)

  /** A STUDENTS row. */
  datatype Student = Student(name: Value, phone: Value, grade: Cell)

  /** A GROUPS row; NAME is unique. */
  datatype Group = Group(name: string, grade: int, teacher: int)

  /** A GROUP_STUDENTS row; the pair is unique. */
  datatype Membership = Membership(group: int, student: int)

  /** The key of ATTENDANCE (its value is the STATUS column). */
  datatype AttendanceKey = AttendanceKey(schedule: int, student: int, date: int)

  /** The key of STUDENT_NOTES and the columns it sets. */
  datatype NoteKey = NoteKey(student: int, schedule: int, date: int)
  datatype Note = Note(rating: int, text: Value)

  /** The key of STUDENT_GROUP_FEES and the columns it sets. */
  datatype FeeKey = FeeKey(student: int, group: int, year: int, month: int)
  datatype Fee = Fee(amountPaid: Cell, isPaid: Cell, createdAt: int)

  /** The date masks handed to TO_DATE. */
  const DayMask: string := "YYYY-MM-DD"
  const TimestampMask: string := "YYYY-MM-DD HH24:MI:SS"

  /** What a bound value reads back as from a column: undefined becomes NULL,
      and so does '' since Oracle does not tell the empty string from NULL. */
  function Stored(v: Value): (r: Value)
    ensures !r.Undefined? && r != Str("")
    ensures Truthy(r) == Truthy(v)
    ensures Truthy(v) ==> r == v
    ensures !v.Undefined? && v != Str("") ==> r == v
  {
    if v.Undefined? || v == Str("") then Null else v
  }

  /** A MERGE keyed by `k`: the row at `k` holds `v` afterwards, whether it was
      there before or not, and every other row is as it was. */
  function Merge<K, V>(m: map<K, V>, k: K, v: V): (r: map<K, V>)
    ensures k in r && r[k] == v
    ensures r.Keys == m.Keys + {k}
    ensures forall j :: j in m && j != k ==> r[j] == m[j]
  {
    m[k := v]
  }

  /** Repeating the same MERGE changes nothing more. */
  lemma MergeIdempotent<K, V>(m: map<K, V>, k: K, v: V)
    ensures Merge(Merge(m, k, v), k, v) == Merge(m, k, v)
  {
  }

  /** The groups a teacher teaches. */
  function GroupsOfTeacher(groups: map<int, Group>, teacher: int): (ids: set<int>)
    ensures forall g :: g in ids <==> g in groups && groups[g].teacher == teacher
  {
    set g | g in groups && groups[g].teacher == teacher
  }

  /** The schedule slots that belong to one of the given groups; a slot whose
      GROUP_ID is NULL belongs to none. */
  function SlotsOfGroups(schedule: map<int, Slot>, groupIds: set<int>): (ids: set<int>)
    ensures forall s :: s in ids <==> s in schedule && schedule[s].group.NumCell? && schedule[s].group.n in groupIds
  {
    set s | s in schedule && schedule[s].group.NumCell? && schedule[s].group.n in groupIds
  }

  /** All tables and the next value of every sequence. */
  datatype Store = Store(
    teachers: map<int, Teacher>, users: map<int, User>, students: map<int, Student>,
    groups: map<int, Group>, members: set<Membership>, schedule: map<int, Slot>,
    attendance: map<AttendanceKey, Value>, notes: map<NoteKey, Note>, fees: map<FeeKey, Fee>,
    nextTeacherId: int, nextUserId: int, nextStudentId: int, nextGroupId: int, nextScheduleId: int)

  /** No two groups share a name (the unique constraint on GROUPS.NAME). */
  predicate UniqueGroupNames(groups: map<int, Group>) {
    forall a, b :: a in groups && b in groups && groups[a].name == groups[b].name ==> a == b
  }

  /** A membership joins an existing group and an existing student of the
      group's grade: adding a membership checks the grades, and a change of
      grade on either side drops the memberships it would break. */
  predicate Joins(s: Store, m: Membership) {
    m.group in s.groups && m.student in s.students && s.students[m.student].grade == NumCell(s.groups[m.group].grade)
  }

  /** What holds of the tables between requests: every id was drawn from its
      sequence, group names are unique, every user belongs to an existing
      teacher, and every membership joins an existing group and student of
      the same grade. Attendance, notes and fees are not constrained:
      the handlers write them without checking that the rows they name exist. */
  predicate Consistent(s: Store) {
    && (forall k :: k in s.teachers ==> k < s.nextTeacherId)
    && (forall k :: k in s.users ==> k < s.nextUserId)
    && (forall k :: k in s.students ==> k < s.nextStudentId)
    && (forall k :: k in s.groups ==> k < s.nextGroupId)
    && (forall k :: k in s.schedule ==> k < s.nextScheduleId)
    && UniqueGroupNames(s.groups)
    && (forall u :: u in s.users ==> s.users[u].teacher in s.teachers)
    && (forall m :: m in s.members ==> Joins(s, m))
  }

  /** The next value of every sequence is not yet a key of its table. */
  lemma NextIdsAreFree(s: Store)
    requires Consistent(s)
    ensures s.nextTeacherId !in s.teachers && s.nextUserId !in s.users && s.nextStudentId !in s.students
    ensures s.nextGroupId !in s.groups && s.nextScheduleId !in s.schedule
  {
  }

  /** The frame fact the attendance, note and fee writes rely on: replacing
      those three tables keeps the store consistent. */
  lemma RecordsAreFree(s: Store, attendance: map<AttendanceKey, Value>, notes: map<NoteKey, Note>, fees: map<FeeKey, Fee>)
    requires Consistent(s)
    ensures Consistent(s.(attendance := attendance, notes := notes, fees := fees))
  {
  }

  /** A sequence value that is drawn and then thrown away by a rollback. */
  lemma TeacherSequenceAdvances(s: Store)
    requires Consistent(s)
    ensures Consistent(s.(nextTeacherId := s.nextTeacherId + 1))
  {
  }

  /** A GROUPS_SEQ value drawn by an INSERT that the unique constraint refuses. */
  lemma GroupSequenceAdvances(s: Store)
    requires Consistent(s)
    ensures Consistent(s.(nextGroupId := s.nextGroupId + 1))
  {
  }

  /** A new teacher under the next TEACHERS_SEQ value, and its 'teacher'
      user under the next USERS_SEQ value. */
  function AddTeacher(s: Store, row: Teacher, username: string): (r: Store)
    ensures r.teachers.Keys == s.teachers.Keys + {s.nextTeacherId} && r.teachers[s.nextTeacherId] == row
    ensures r.users.Keys == s.users.Keys + {s.nextUserId} && r.users[s.nextUserId] == User(username, "teacher", s.nextTeacherId)
    ensures forall k :: k in s.teachers && k != s.nextTeacherId ==> r.teachers[k] == s.teachers[k]
    ensures forall k :: k in s.users && k != s.nextUserId ==> r.users[k] == s.users[k]
    ensures r.nextTeacherId == s.nextTeacherId + 1 && r.nextUserId == s.nextUserId + 1
    ensures r.students == s.students && r.groups == s.groups && r.members == s.members && r.schedule == s.schedule
    ensures r.attendance == s.attendance && r.notes == s.notes && r.fees == s.fees
    ensures r.nextStudentId == s.nextStudentId && r.nextGroupId == s.nextGroupId && r.nextScheduleId == s.nextScheduleId
  {
    s.(teachers := s.teachers[s.nextTeacherId := row],
       users := s.users[s.nextUserId := User(username, "teacher", s.nextTeacherId)],
       nextTeacherId := s.nextTeacherId + 1, nextUserId := s.nextUserId + 1)
  }

  /** A new teacher and its user, both under fresh ids. */
  lemma AddTeacherConsistent(s: Store, row: Teacher, username: string)
    requires Consistent(s)
    ensures Consistent(AddTeacher(s, row, username))
  {
  }

  /** An existing teacher row overwritten. */
  lemma SetTeacherConsistent(s: Store, t: int, row: Teacher)
    requires Consistent(s) && t in s.teachers
    ensures Consistent(s.(teachers := s.teachers[t := row]))
  {
  }

  /** A new student under a fresh id. */
  lemma AddStudentConsistent(s: Store, row: Student)
    requires Consistent(s)
    ensures Consistent(s.(students := s.students[s.nextStudentId := row], nextStudentId := s.nextStudentId + 1))
  {
  }

  /** A new group under a fresh id and a name no group has. */
  lemma AddGroupConsistent(s: Store, row: Group)
    requires Consistent(s)
    requires forall g :: g in s.groups ==> s.groups[g].name != row.name
    ensures Consistent(s.(groups := s.groups[s.nextGroupId := row], nextGroupId := s.nextGroupId + 1))
  {
    var r := s.(groups := s.groups[s.nextGroupId := row], nextGroupId := s.nextGroupId + 1);
    assert s.nextGroupId !in s.groups;
    assert UniqueGroupNames(r.groups);
  }

  /** An existing group overwritten with a name no other group has, possibly
      with some memberships dropped; any it keeps, it keeps at the old grade. */
  lemma UpdateGroupConsistent(s: Store, id: int, row: Group, members: set<Membership>)
    requires Consistent(s) && id in s.groups && members <= s.members
    requires forall g :: g in s.groups && g != id ==> s.groups[g].name != row.name
    requires forall m :: m in members && m.group == id ==> row.grade == s.groups[id].grade
    ensures Consistent(s.(members := members, groups := s.groups[id := row]))
  {
  }

  /** A membership between an existing group and an existing student of its grade. */
  lemma AddMemberConsistent(s: Store, m: Membership)
    requires Consistent(s) && m.group in s.groups && m.student in s.students
    requires s.students[m.student].grade == NumCell(s.groups[m.group].grade)
    ensures Consistent(s.(members := s.members + {m}))
  {
  }

  /** A membership dropped. */
  lemma RemoveMemberConsistent(s: Store, m: Membership)
    requires Consistent(s)
    ensures Consistent(s.(members := s.members - {m}))
  {
  }

  /** The schedule replaced by a table whose ids were all drawn from its sequence. */
  lemma ScheduleConsistent(s: Store, t: Table)
    requires Consistent(s) && Fresh(t)
    ensures Consistent(s.(schedule := t.slots, nextScheduleId := t.next))
  {
  }
}
