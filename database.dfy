/**
 * The handlers that write to the database, each as a method of `Database`,
 * whose fields are the tables. A method performs the handler's statements in
 * the handler's order; a commit keeps the new state, and a rollback restores
 * the state the request started from. A sequence is not rolled back.
 */
module Backend {
  import opened Wrappers
  import opened Replies
  import opened JsValues
  import opened Validators
  import opened ScheduleBatch
  import opened Tables
  import opened Cascades

  /** The TEACHERS row create-teacher inserts: the optional columns default to
      NULL, and GOLDEN to 'N', when the body leaves them falsy. */
  function NewTeacher(first: Value, last: Value, phone: Value, gender: Value, image: Value,
                      subject: Value, golden: Value, youtubeUrl: Value): (t: Teacher)
    ensures t.firstName == Stored(first) && t.lastName == Stored(last)
    ensures t.golden == (if Truthy(golden) then golden else Str("N"))
    ensures t.phone == (if Truthy(phone) then phone else Null)
    ensures t.gender == (if Truthy(gender) then gender else Null)
    ensures t.image == (if Truthy(image) then image else Null)
    ensures t.subject == (if Truthy(subject) then subject else Null)
    ensures t.youtubeUrl == (if Truthy(youtubeUrl) then youtubeUrl else Null)
  {
    Teacher(Stored(first), Stored(last), OrElse(phone, Null), OrElse(gender, Null),
            OrElse(image, Null), OrElse(subject, Null), OrElse(golden, Str("N")), OrElse(youtubeUrl, Null))
  }

  /** The text a group NAME is stored as: a string as it is, a number in
      decimal. A boolean is taken to be refused by the VARCHAR2 bind. */
  function GroupNameText(name: Value): (r: Option<string>)
    ensures name.Str? ==> r == Some(name.s)
    ensures r.Some? ==> name.Str? || name.Number?
  {
    match name
    case Str(s) => Some(s)
    case Number(n) => Some(IntToString(n))
    case _ => None
  }

  /** The key of a fee row, when all four key values bind to numbers. */
  function FeeKeyOf(studentId: Value, groupId: Value, year: Value, month: Value): (k: Option<FeeKey>)
    ensures k.Some? <==> && BindNumber(studentId).Some? && BindNumber(studentId).value.NumCell?
                         && BindNumber(groupId).Some? && BindNumber(groupId).value.NumCell?
                         && BindNumber(year).Some? && BindNumber(year).value.NumCell?
                         && BindNumber(month).Some? && BindNumber(month).value.NumCell?
    ensures k.Some? ==> && BindNumber(studentId) == Some(NumCell(k.value.student))
                        && BindNumber(groupId) == Some(NumCell(k.value.group))
                        && BindNumber(year) == Some(NumCell(k.value.year))
                        && BindNumber(month) == Some(NumCell(k.value.month))
  {
    match (BindNumber(studentId), BindNumber(groupId), BindNumber(year), BindNumber(month))
    case (Some(NumCell(s)), Some(NumCell(g)), Some(NumCell(y)), Some(NumCell(m))) => Some(FeeKey(s, g, y, m))
    case _ => None
  }

  class Database {
    var teachers: map<int, Teacher>
    var users: map<int, User>
    var students: map<int, Student>
    var groups: map<int, Group>
    var members: set<Membership>
    var schedule: map<int, Slot>
    var attendance: map<AttendanceKey, Value>
    var notes: map<NoteKey, Note>
    var fees: map<FeeKey, Fee>
    var nextTeacherId: int
    var nextUserId: int
    var nextStudentId: int
    var nextGroupId: int
    var nextScheduleId: int

    /** All tables at once. */
    function State(): Store
      reads this
    {
      Store(teachers, users, students, groups, members, schedule, attendance, notes, fees,
            nextTeacherId, nextUserId, nextStudentId, nextGroupId, nextScheduleId)
    }

    ghost predicate Valid()
      reads this
    {
      Consistent(State())
    }

    /** An empty database whose sequences start at 1. */
    constructor ()
      ensures Valid()
      ensures State() == Store(map[], map[], map[], map[], {}, map[], map[], map[], map[], 1, 1, 1, 1, 1)
    {
      teachers, users, students, groups, members := map[], map[], map[], map[], {};
      schedule, attendance, notes, fees := map[], map[], map[], map[];
      nextTeacherId, nextUserId, nextStudentId, nextGroupId, nextScheduleId := 1, 1, 1, 1, 1;
    }

    /** `connection.rollback()`: every table goes back to the snapshot `s`.
        Sequences are not rolled back, so `s` carries their current values. */
    method Rollback(s: Store)
      requires s.nextTeacherId == nextTeacherId && s.nextUserId == nextUserId && s.nextStudentId == nextStudentId
      requires s.nextGroupId == nextGroupId && s.nextScheduleId == nextScheduleId
      modifies this
      ensures State() == s
    {
      teachers, users, students, groups, members := s.teachers, s.users, s.students, s.groups, s.members;
      schedule, attendance, notes, fees := s.schedule, s.attendance, s.notes, s.fees;
    }

    /** POST /api/admin/teachers. The teacher row takes the next TEACHERS_SEQ
        value; the user name is then built from the two names, which throws for
        a name that is not a string and rolls the insert back (the sequence
        value stays used). Otherwise a 'teacher' user is added and both commit. */
    method CreateTeacher(first: Value, last: Value, phone: Value, gender: Value, image: Value,
                         subject: Value, golden: Value, youtubeUrl: Value) returns (resp: Response)
      requires Valid()
      modifies this
      ensures Valid()
      ensures !first.Str? || !last.Str? ==>
        resp == ServerError && State() == old(State()).(nextTeacherId := old(nextTeacherId) + 1)
      ensures first.Str? && last.Str? ==>
        var id := old(nextTeacherId);
        && resp == Created(id)
        && id !in old(teachers)
        && State() == AddTeacher(old(State()), NewTeacher(first, last, phone, gender, image, subject, golden, youtubeUrl),
                                 Username(first.s, last.s, id))
    {
      var row := NewTeacher(first, last, phone, gender, image, subject, golden, youtubeUrl);
      if !first.Str? || !last.Str? {
        var snapshot := State();
        var _ := InsertTeacher(row);
        Rollback(snapshot.(nextTeacherId := nextTeacherId));
        TeacherSequenceAdvances(snapshot);
        return ServerError;
      }
      var id := InsertTeacherAccount(row, first.s, last.s);
      resp := Created(id);
    }

    /** The two inserts of a teacher whose names are strings: the teacher row,
        then its 'teacher' user named after the new id. */
    method InsertTeacherAccount(row: Teacher, first: string, last: string) returns (id: int)
      requires Valid()
      modifies this
      ensures Valid()
      ensures id == old(nextTeacherId) && id !in old(teachers)
      ensures State() == AddTeacher(old(State()), row, Username(first, last, id))
    {
      var snapshot := State();
      NextIdsAreFree(snapshot);
      id := InsertTeacher(row);
      ghost var inserted := State();
      assert inserted == snapshot.(teachers := snapshot.teachers[id := row], nextTeacherId := id + 1);
      var username := Username(first, last, id);
      InsertUser(User(username, "teacher", id));
      assert State() == inserted.(users := snapshot.users[snapshot.nextUserId := User(username, "teacher", id)],
                                  nextUserId := snapshot.nextUserId + 1);
      AddTeacherConsistent(snapshot, row, username);
    }

    /** `INSERT INTO TEACHERS ... VALUES (TEACHERS_SEQ.NEXTVAL, ...) RETURNING TEACHER_ID`. */
    method InsertTeacher(row: Teacher) returns (id: int)
      modifies this`teachers, this`nextTeacherId
      ensures id == old(nextTeacherId) && nextTeacherId == id + 1
      ensures teachers == old(teachers)[id := row]
    {
      id := nextTeacherId;
      nextTeacherId := nextTeacherId + 1;
      teachers := teachers[id := row];
    }

    /** `INSERT INTO USERS ... VALUES (USERS_SEQ.NEXTVAL, ...)`. */
    method InsertUser(user: User)
      modifies this`users, this`nextUserId
      ensures nextUserId == old(nextUserId) + 1
      ensures users == old(users)[old(nextUserId) := user]
    {
      users := users[nextUserId := user];
      nextUserId := nextUserId + 1;
    }

    /** The six DELETE statements that teacher deletion and group deletion
        both issue for a set of groups, in their order: the attendance and the
        notes taken in the groups' schedule slots, the groups' fees, their
        memberships, their schedule slots, and the groups themselves. */
    method DeleteGroupRows(gs: set<int>)
      modifies this
      ensures State() == RemoveGroups(old(State()), gs)
    {
      DeleteGroupRecords(gs);
      members := MembersOutside(members, gs);
      schedule := SlotsOutside(schedule, gs);
      groups := GroupsOutside(groups, gs);
    }

    /** The first three of those statements: the attendance and the notes
        taken in the groups' schedule slots, and the groups' fees. */
    method DeleteGroupRecords(gs: set<int>)
      modifies this`attendance, this`notes, this`fees
      ensures var r := RemoveGroups(old(State()), gs);
        attendance == r.attendance && notes == r.notes && fees == r.fees
    {
      var ss := SlotsOfGroups(schedule, gs);
      attendance := Restrict(attendance, (k: AttendanceKey) => k.schedule !in ss);
      notes := Restrict(notes, (k: NoteKey) => k.schedule !in ss);
      fees := Restrict(fees, (k: FeeKey) => k.group !in gs);
    }

    /** DELETE /api/admin/teachers/:id. The route parameter is bound as it is, so
        `teacherId` is `BindNumber(Str(req.params.id))`; the teacher's attendance and notes (through the schedule of their
        groups), fees, memberships, schedule, groups and users are deleted,
        then the teacher; if no teacher row was deleted, all is rolled back. */
    method DeleteTeacher(teacherId: Option<Cell>) returns (resp: Response)
      requires Valid()
      modifies this
      ensures Valid()
      ensures teacherId.None? ==> resp == ServerError && State() == old(State())
      ensures teacherId == Some(NullCell) ==> resp == NotFound && State() == old(State())
      ensures teacherId.Some? && teacherId.value.NumCell? ==>
        var t := teacherId.value.n;
        if t !in old(teachers) then resp == NotFound && State() == old(State())
        else resp == Success && State() == RemoveTeacher(old(State()), t)
      ensures resp == Success ==>
        var t := teacherId.value.n;
        && t !in teachers
        && (forall g :: g in groups ==> groups[g].teacher != t)
        && (forall u :: u in users ==> users[u].teacher != t)
      ensures resp == Success ==>
        var gs := GroupsOfTeacher(old(groups), teacherId.value.n);
        && (forall k :: k in schedule ==> !(schedule[k].group.NumCell? && schedule[k].group.n in gs))
        && (forall k :: k in fees ==> k.group !in gs)
        && (forall m :: m in members ==> m.group !in gs)
        && (forall k :: k in attendance ==> k.schedule !in SlotsOfGroups(old(schedule), gs))
        && (forall k :: k in notes ==> k.schedule !in SlotsOfGroups(old(schedule), gs))
    {
      var cell := teacherId;
      if cell.None? {
        return ServerError;
      }
      if cell.value.NullCell? {
        return NotFound;
      }
      var t := cell.value.n;
      var snapshot := State();
      DeleteGroupRows(GroupsOfTeacher(groups, t));
      users := UsersWithoutTeacher(users, t);
      var affected := t in teachers;
      teachers := teachers - {t};
      if !affected {
        Rollback(snapshot);
        return NotFound;
      }
      assert State() == RemoveTeacher(old(State()), t);
      RemoveTeacherConsistent(old(State()), t);
      resp := Success;
    }

    /** POST /api/change-teacher-image: the input checks, then the teacher must
        exist, then its IMAGE is set to the URL. */
    method ChangeTeacherImage(teacherId: Value, imageUrl: Value) returns (resp: Response)
      requires Valid()
      modifies this
      ensures Valid()
      ensures CheckImageRequest(teacherId, imageUrl).Err? ==>
        resp == CheckImageRequest(teacherId, imageUrl).error && State() == old(State())
      ensures CheckImageRequest(teacherId, imageUrl).Ok? ==>
        var url := CheckImageRequest(teacherId, imageUrl).value;
        match BindNumber(teacherId)
        case Some(NumCell(t)) =>
          if t in old(teachers) then
            resp == Success && State() == old(State()).(teachers := old(teachers)[t := old(teachers)[t].(image := Str(url))])
          else resp == NotFound && State() == old(State())
        case Some(NullCell) => resp == NotFound && State() == old(State())
        case None => resp == ServerError && State() == old(State())
    {
      var check := CheckImageRequest(teacherId, imageUrl);
      if check.Err? {
        return check.error;
      }
      var cell := BindNumber(teacherId);
      if cell.None? {
        return ServerError;
      }
      if cell.value.NullCell? || cell.value.n !in teachers {
        return NotFound;
      }
      var t := cell.value.n;
      var row := teachers[t].(image := Str(check.value));
      teachers := teachers[t := row];
      SetTeacherConsistent(old(State()), t, row);
      resp := Success;
    }

    /** POST /api/admin/students: NAME and GRADE_ID must be truthy; the row
        takes the next STUDENTS_SEQ value. */
    method CreateStudent(name: Value, phone: Value, grade: Value) returns (resp: Response)
      requires Valid()
      modifies this
      ensures Valid()
      ensures !Truthy(name) || !Truthy(grade) ==> resp == BadRequest(MissingFields) && State() == old(State())
      ensures Truthy(name) && Truthy(grade) && BindNumber(grade).None? ==> resp == ServerError && State() == old(State())
      ensures Truthy(name) && Truthy(grade) && BindNumber(grade).Some? ==>
        var id := old(nextStudentId);
        && resp == Created(id)
        && id !in old(students)
        && State() == old(State()).(
             students := old(students)[id := Student(Stored(name), Stored(phone), BindNumber(grade).value)],
             nextStudentId := id + 1)
    {
      if !Truthy(name) || !Truthy(grade) {
        return BadRequest(MissingFields);
      }
      var g := BindNumber(grade);
      if g.None? {
        return ServerError;
      }
      var id := nextStudentId;
      var row := Student(Stored(name), Stored(phone), g.value);
      students := students[id := row];
      nextStudentId := nextStudentId + 1;
      AddStudentConsistent(old(State()), row);
      resp := Created(id);
    }

    /** PUT /api/admin/students/:id, with `studentId` the `Number` of the
        route parameter: the student's memberships are always
        deleted, then the row is overwritten if it exists; a GRADE_ID that does
        not bind fails the update and the uncommitted deletion is dropped. */
    method UpdateStudent(studentId: Num, name: Value, phone: Value, grade: Value) returns (resp: Response)
      requires Valid()
      modifies this
      ensures Valid()
      ensures studentId.NaN? || BindNumber(grade).None? ==> resp == ServerError && State() == old(State())
      ensures studentId.Finite? && BindNumber(grade).Some? ==>
        var s := studentId.n;
        && resp == Success
        && State() == ReplaceStudent(old(State()), s, Student(Stored(name), Stored(phone), BindNumber(grade).value))
    {
      var id := BindNum(studentId);
      if id.None? {
        return ServerError;
      }
      var s := id.value;
      var snapshot := State();
      members := MembersWithoutStudent(members, s);
      var g := BindNumber(grade);
      if g.None? {
        Rollback(snapshot);
        return ServerError;
      }
      if s in students {
        students := students[s := Student(Stored(name), Stored(phone), g.value)];
      }
      UpdateStudentConsistent(old(State()), s, Student(Stored(name), Stored(phone), g.value));
      resp := Success;
    }

    /** The five DELETE statements of student deletion, in their order: the
        student's attendance, notes, fees and memberships, then the student. */
    method DeleteStudentRows(s: int)
      modifies this
      ensures State() == RemoveStudent(old(State()), s)
    {
      attendance := Restrict(attendance, (k: AttendanceKey) => k.student != s);
      notes := Restrict(notes, (k: NoteKey) => k.student != s);
      fees := Restrict(fees, (k: FeeKey) => k.student != s);
      members := MembersWithoutStudent(members, s);
      students := students - {s};
    }

    /** DELETE /api/admin/students/:id, with `studentId` the `Number` of the
        route parameter: the student's attendance, notes, fees
        and memberships, then the student; if no student row was deleted, all
        is rolled back. */
    method DeleteStudent(studentId: Num) returns (resp: Response)
      requires Valid()
      modifies this
      ensures Valid()
      ensures studentId.NaN? ==> resp == ServerError && State() == old(State())
      ensures studentId.Finite? ==>
        var s := studentId.n;
        if s !in old(students) then resp == NotFound && State() == old(State())
        else
          resp == Success && State() == RemoveStudent(old(State()), s)
      ensures resp == Success ==>
        var s := studentId.n;
        && s !in students
        && (forall k :: k in attendance ==> k.student != s)
        && (forall k :: k in notes ==> k.student != s)
        && (forall k :: k in fees ==> k.student != s)
        && (forall m :: m in members ==> m.student != s)
    {
      var id := BindNum(studentId);
      if id.None? {
        return ServerError;
      }
      var s := id.value;
      var snapshot := State();
      var affected := s in students;
      DeleteStudentRows(s);
      if !affected {
        Rollback(snapshot);
        return NotFound;
      }
      RemoveStudentConsistent(old(State()), s);
      resp := Success;
    }

    /** POST /api/admin/groups: NAME, gradeId and teacherId must be truthy; a
        NAME already in use violates the unique constraint and is a 400, after
        the INSERT has drawn its GROUPS_SEQ value. */
    method CreateGroup(name: Value, gradeId: Value, teacherId: Value) returns (resp: Response)
      requires Valid()
      modifies this
      ensures Valid()
      ensures !Truthy(name) || !Truthy(gradeId) || !Truthy(teacherId) ==>
        resp == BadRequest(MissingFields) && State() == old(State())
      ensures Truthy(name) && Truthy(gradeId) && Truthy(teacherId) ==>
        match (GroupNameText(name), BindNumber(gradeId), BindNumber(teacherId))
        case (Some(text), Some(NumCell(grade)), Some(NumCell(teacher))) =>
          if exists g :: g in old(groups) && old(groups)[g].name == text then
            resp == BadRequest(DuplicateGroupName) && State() == old(State()).(nextGroupId := old(nextGroupId) + 1)
          else
            var id := old(nextGroupId);
            resp == Created(id) && id !in old(groups)
            && State() == old(State()).(groups := old(groups)[id := Group(text, grade, teacher)], nextGroupId := id + 1)
        case _ => resp == ServerError && State() == old(State())
    {
      if !Truthy(name) || !Truthy(gradeId) || !Truthy(teacherId) {
        return BadRequest(MissingFields);
      }
      var text := GroupNameText(name);
      var grade := BindNumber(gradeId);
      var teacher := BindNumber(teacherId);
      if text.None? || grade.None? || grade.value.NullCell? || teacher.None? || teacher.value.NullCell? {
        return ServerError;
      }
      if exists g :: g in groups && groups[g].name == text.value {
        nextGroupId := nextGroupId + 1;
        assert State() == old(State()).(nextGroupId := old(nextGroupId) + 1);
        GroupSequenceAdvances(old(State()));
        return BadRequest(DuplicateGroupName);
      }
      var id := nextGroupId;
      groups := groups[id := Group(text.value, grade.value.n, teacher.value.n)];
      nextGroupId := nextGroupId + 1;
      assert State() == old(State()).(groups := old(groups)[id := Group(text.value, grade.value.n, teacher.value.n)], nextGroupId := id + 1);
      AddGroupConsistent(old(State()), Group(text.value, grade.value.n, teacher.value.n));
      resp := Created(id);
    }

    /** PUT /api/admin/groups/:id: the route parameter and the body go
        through the input checks (`ParseGroupEdit`); 404 for a missing group;
        the group's memberships are deleted when, and only when, the grade
        changes; then the row is overwritten. A name taken by another group
        violates the unique constraint: 500, and the deletion is dropped. */
    method UpdateGroup(idParam: string, groupName: Value, name: Value, gradeUpper: Value,
                       gradeLower: Value, teacherUpper: Value, teacherLower: Value) returns (resp: Response)
      requires Valid()
      modifies this
      ensures Valid()
      ensures var edit := ParseGroupEdit(idParam, groupName, name, gradeUpper, gradeLower, teacherUpper, teacherLower);
        edit.Err? ==>
        resp == edit.error
        && State() == old(State())
      ensures var edit := ParseGroupEdit(idParam, groupName, name, gradeUpper, gradeLower, teacherUpper, teacherLower);
        edit.Ok? ==>
        var e := edit.value;
        if e.id !in old(groups) then resp == NotFound && State() == old(State())
        else if exists g :: g in old(groups) && g != e.id && old(groups)[g].name == e.name then
          resp == ServerError && State() == old(State())
        else
          && resp == Success
          && State() == old(State()).(
               members := if old(groups)[e.id].grade != e.grade
                          then MembersOutside(old(members), {e.id})
                          else old(members),
               groups := old(groups)[e.id := Group(e.name, e.grade, e.teacher)])
    {
      var edit := ParseGroupEdit(idParam, groupName, name, gradeUpper, gradeLower, teacherUpper, teacherLower);
      if edit.Err? {
        return edit.error;
      }
      var e := edit.value;
      if e.id !in groups {
        return NotFound;
      }
      var snapshot := State();
      var oldGrade := groups[e.id].grade;
      if oldGrade != e.grade {
        members := MembersOutside(members, {e.id});
      }
      if exists g :: g in groups && g != e.id && groups[g].name == e.name {
        Rollback(snapshot);
        return ServerError;
      }
      groups := groups[e.id := Group(e.name, e.grade, e.teacher)];
      UpdateGroupConsistent(old(State()), e.id, Group(e.name, e.grade, e.teacher), members);
      resp := Success;
    }

    /** DELETE /api/admin/groups/:id, with `groupId` the `Number` of the
        route parameter: `!groupId` is a 400; then the attendance
        and notes of the group's schedule, its fees, memberships and schedule,
        then the group; if no group row was deleted, all is rolled back. */
    method DeleteGroup(groupId: Num) returns (resp: Response)
      requires Valid()
      modifies this
      ensures Valid()
      ensures !NonZero(groupId) ==> resp == BadRequest(InvalidGroupId) && State() == old(State())
      ensures NonZero(groupId) ==>
        var g := groupId.n;
        if g !in old(groups) then resp == NotFound && State() == old(State())
        else resp == Success && State() == RemoveGroups(old(State()), {g})
      ensures resp == Success ==>
        var g := groupId.n;
        && g !in groups
        && (forall k :: k in fees ==> k.group != g)
        && (forall m :: m in members ==> m.group != g)
        && (forall s :: s in schedule ==> schedule[s].group != NumCell(g))
    {
      var n := groupId;
      if !NonZero(n) {
        return BadRequest(InvalidGroupId);
      }
      var g := n.n;
      var snapshot := State();
      var affected := g in groups;
      DeleteGroupRows({g});
      if !affected {
        Rollback(snapshot);
        return NotFound;
      }
      RemoveGroupsConsistent(old(State()), {g});
      resp := Success;
    }

    /** POST /api/admin/groups/:id/students, with `groupId` the `Number` of
        the route parameter: the group id must be non-zero and
        studentId truthy; the group and the student must exist with the same
        grade; a pair already present violates the unique constraint. */
    method AddMember(groupId: Num, studentId: Value) returns (resp: Response)
      requires Valid()
      modifies this
      ensures Valid()
      ensures !NonZero(groupId) ==> resp == BadRequest(InvalidGroupId) && State() == old(State())
      ensures NonZero(groupId) && !Truthy(studentId) ==>
        resp == BadRequest(StudentIdRequired) && State() == old(State())
      ensures NonZero(groupId) && Truthy(studentId) && ToNumber(studentId).NaN? ==>
        resp == ServerError && State() == old(State())
      ensures NonZero(groupId) && Truthy(studentId) && ToNumber(studentId).Finite? ==>
        var g := groupId.n;
        var s := ToNumber(studentId).n;
        if !(g in old(groups) && s in old(students) && old(students)[s].grade == NumCell(old(groups)[g].grade)) then
          resp == BadRequest(GradeMismatch) && State() == old(State())
        else if Membership(g, s) in old(members) then
          resp == BadRequest(AlreadyMember) && State() == old(State())
        else
          resp == Success && State() == old(State()).(members := old(members) + {Membership(g, s)})
    {
      var n := groupId;
      if !NonZero(n) {
        return BadRequest(InvalidGroupId);
      }
      if !Truthy(studentId) {
        return BadRequest(StudentIdRequired);
      }
      var sid := BindNum(ToNumber(studentId));
      if sid.None? {
        return ServerError;
      }
      var g, s := n.n, sid.value;
      if !(g in groups && s in students && students[s].grade == NumCell(groups[g].grade)) {
        return BadRequest(GradeMismatch);
      }
      if Membership(g, s) in members {
        return BadRequest(AlreadyMember);
      }
      members := members + {Membership(g, s)};
      AddMemberConsistent(old(State()), Membership(g, s));
      resp := Success;
    }

    /** DELETE /api/admin/groups/:groupId/students/:studentId, with both ids
        the `Number` of their route parameters: both must be non-zero, and
        the pair must be present. */
    method RemoveMember(groupId: Num, studentId: Num) returns (resp: Response)
      requires Valid()
      modifies this
      ensures Valid()
      ensures !NonZero(groupId) || !NonZero(studentId) ==>
        resp == BadRequest(InvalidIds) && State() == old(State())
      ensures NonZero(groupId) && NonZero(studentId) ==>
        var m := Membership(groupId.n, studentId.n);
        if m in old(members) then resp == Success && State() == old(State()).(members := old(members) - {m})
        else resp == NotFound && State() == old(State())
    {
      if !NonZero(groupId) || !NonZero(studentId) {
        return BadRequest(InvalidIds);
      }
      var m := Membership(groupId.n, studentId.n);
      var affected := m in members;
      members := members - {m};
      RemoveMemberConsistent(old(State()), m);
      resp := if affected then Success else NotFound;
    }

    /** One turn of the schedule batch: an item without a start time, or
        whose start time does not parse, is skipped; otherwise its `_state`
        picks an INSERT (a new SCHEDULE_SEQ value), an UPDATE or a DELETE.
        `ok` is false when the statement failed. */
    method SaveScheduleItem(item: Item, parse: string -> Option<int>,
                            rejects: (map<int, Slot>, Write) -> bool) returns (ok: bool)
      modifies this`schedule, this`nextScheduleId
      ensures var r := Step(Table(old(schedule), old(nextScheduleId)), item, parse, rejects);
        && (ok <==> r.Some?)
        && (ok ==> schedule == r.value.slots && nextScheduleId == r.value.next)
        && (!ok ==> schedule == old(schedule) && nextScheduleId == old(nextScheduleId))
    {
      ok := true;
      if !Truthy(item.startTime) {
        return;
      }
      var start := parse(TimeText(item.startTime));
      if start.None? {
        return;
      }
      if item.state == Str("new") {
        var slot := SlotOf(item, start.value, parse);
        if slot.None? || rejects(schedule, Insert(slot.value)) {
          return false;
        }
        schedule := schedule[nextScheduleId := slot.value];
        nextScheduleId := nextScheduleId + 1;
      } else if item.state == Str("updated") {
        var id := BindNumber(item.scheduleId);
        var slot := SlotOf(item, start.value, parse);
        if id.None? || slot.None? || rejects(schedule, Update(id.value, slot.value)) {
          return false;
        }
        if id.value.NumCell? && id.value.n in schedule {
          schedule := schedule[id.value.n := slot.value];
        }
      } else if item.state == Str("deleted") {
        var id := BindNumber(item.scheduleId);
        if id.None? || rejects(schedule, Delete(id.value)) {
          return false;
        }
        if id.value.NumCell? {
          schedule := schedule - {id.value.n};
        }
      }
    }

    /** POST /api/schedules: the items in array order, each statement
        committing on its own, until the first statement that fails; a failure
        leaves the effect of the items before it and answers 500. */
    method SaveSchedules(items: seq<Item>, parse: string -> Option<int>,
                         rejects: (map<int, Slot>, Write) -> bool) returns (resp: Response)
      requires Valid()
      modifies this`schedule, this`nextScheduleId
      ensures Valid()
      ensures
        var r := Run(Table(old(schedule), old(nextScheduleId)), items, parse, rejects);
        && State() == old(State()).(schedule := r.table.slots, nextScheduleId := r.table.next)
        && (resp == Success <==> r.ok)
        && (resp == Success || resp == ServerError)
    {
      ghost var t0 := Table(schedule, nextScheduleId);
      var i := 0;
      var failed := false;
      while i < |items| && !failed
        invariant 0 <= i <= |items|
        invariant !failed ==> Run(t0, items, parse, rejects) == Run(Table(schedule, nextScheduleId), items[i..], parse, rejects)
        invariant failed ==> Run(t0, items, parse, rejects) == BatchResult(Table(schedule, nextScheduleId), false)
      {
        assert items[i..][0] == items[i] && items[i..][1..] == items[i + 1..];
        var ok := SaveScheduleItem(items[i], parse, rejects);
        failed := !ok;
        i := i + 1;
      }
      if !failed {
        assert items[i..] == [];
      }
      ScheduleConsistent(old(State()), Table(schedule, nextScheduleId));
      resp := if failed then ServerError else Success;
    }

    /** POST /api/attendance: both ids go through `Number`, and NaN is a 400;
        the MERGE then sets the status at (schedule, student, day). */
    method RecordAttendance(scheduleId: Value, studentId: Value, status: Value, date: Value,
                            toDate: (Value, string) -> Option<int>) returns (resp: Response)
      requires Valid()
      modifies this
      ensures Valid()
      ensures ToNumber(scheduleId).NaN? || ToNumber(studentId).NaN? ==>
        resp == BadRequest(NaNId) && State() == old(State())
      ensures ToNumber(scheduleId).Finite? && ToNumber(studentId).Finite? ==>
        match toDate(date, DayMask)
        case None => resp == ServerError && State() == old(State())
        case Some(d) =>
          var key := AttendanceKey(ToNumber(scheduleId).n, ToNumber(studentId).n, d);
          resp == Success && State() == old(State()).(attendance := Merge(old(attendance), key, Stored(status)))
    {
      var sch := ToNumber(scheduleId);
      var st := ToNumber(studentId);
      if sch.NaN? || st.NaN? {
        return BadRequest(NaNId);
      }
      var d := toDate(date, DayMask);
      if d.None? {
        return ServerError;
      }
      attendance := Merge(attendance, AttendanceKey(sch.n, st.n, d.value), Stored(status));
      RecordsAreFree(old(State()), attendance, notes, fees);
      resp := Success;
    }

    /** POST /api/student/:studentId/note: the ids and the rating go through
        `parseInt`; the MERGE then sets rating and text at (student, schedule, day). */
    method RecordNote(studentParam: string, scheduleId: Value, note: Value, noteDate: Value, rating: Value,
                      toDate: (Value, string) -> Option<int>) returns (resp: Response)
      requires Valid()
      modifies this
      ensures Valid()
      ensures
        match (BindNum(ParseInt10(studentParam)), BindNum(ParseInt10(ToStr(scheduleId))),
               toDate(noteDate, DayMask), BindNum(ParseInt10(ToStr(rating))))
        case (Some(st), Some(sch), Some(d), Some(r)) =>
          resp == Success
          && State() == old(State()).(notes := Merge(old(notes), NoteKey(st, sch, d), Note(r, Stored(note))))
        case _ => resp == ServerError && State() == old(State())
    {
      var st := BindNum(ParseInt10(studentParam));
      var sch := BindNum(ParseInt10(ToStr(scheduleId)));
      var d := toDate(noteDate, DayMask);
      var r := BindNum(ParseInt10(ToStr(rating)));
      if st.None? || sch.None? || d.None? || r.None? {
        return ServerError;
      }
      notes := Merge(notes, NoteKey(st.value, sch.value, d.value), Note(r.value, Stored(note)));
      RecordsAreFree(old(State()), attendance, notes, fees);
      resp := Success;
    }

    /** POST /api/studentfinance/update: five fields must be truthy; the fee
        row of (student, group, year, month) is looked up and then updated or
        inserted with the amount, the paid flag and the date. The amount and
        the flag are bound to NUMBER columns, so a value that does not convert
        fails the write. */
    method UpdateFee(studentId: Value, year: Value, groupId: Value, month: Value, amountPaid: Value,
                     isPaid: Value, createdAt: Value, toDate: (Value, string) -> Option<int>) returns (resp: Response)
      requires Valid()
      modifies this
      ensures Valid()
      ensures !(Truthy(studentId) && Truthy(year) && Truthy(groupId) && Truthy(month) && Truthy(createdAt)) ==>
        resp == BadRequest(MissingFields) && State() == old(State())
      ensures Truthy(studentId) && Truthy(year) && Truthy(groupId) && Truthy(month) && Truthy(createdAt) ==>
        match (FeeKeyOf(studentId, groupId, year, month), BindNumber(amountPaid), BindNumber(isPaid),
               toDate(createdAt, TimestampMask))
        case (Some(key), Some(amount), Some(paid), Some(d)) =>
          resp == Success
          && State() == old(State()).(fees := Merge(old(fees), key, Fee(amount, paid, d)))
        case _ => resp == ServerError && State() == old(State())
    {
      if !Truthy(studentId) || !Truthy(year) || !Truthy(groupId) || !Truthy(month) || !Truthy(createdAt) {
        return BadRequest(MissingFields);
      }
      var key := FeeKeyOf(studentId, groupId, year, month);
      if key.None? {
        return ServerError;
      }
      // The UPDATE of an existing row and the INSERT of a missing one write
      // the same columns, so both are the MERGE of the row at the key.
      var amount := BindNumber(amountPaid);
      var paid := BindNumber(isPaid);
      var d := toDate(createdAt, TimestampMask);
      if amount.None? || paid.None? || d.None? {
        return ServerError;
      }
      fees := Merge(fees, key.value, Fee(amount.value, paid.value, d.value));
      RecordsAreFree(old(State()), attendance, notes, fees);
      resp := Success;
    }
  }
}
