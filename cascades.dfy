/**
 * What the three cascading deletes leave behind, as functions of the tables:
 * removing a student, a set of groups, or a teacher together with every row
 * that refers to it. The handlers delete children first, so by the time the
 * parent row goes, nothing in these tables refers to it.
 */
module Cascades {
  import opened JsValues
  import opened ScheduleBatch
  import opened Tables

  /** The rows of `m` whose key passes `keep`, each with its value. */
  function Restrict<K(!new), V>(m: map<K, V>, keep: K -> bool): (kept: map<K, V>)
    ensures forall k :: k in kept <==> k in m && keep(k)
    ensures forall k :: k in kept ==> kept[k] == m[k]
  {
    map k | k in m && keep(k) :: m[k]
  }

  /** The memberships of students other than `id`. */
  function MembersWithoutStudent(members: set<Membership>, id: int): (kept: set<Membership>)
    ensures forall m :: m in kept <==> m in members && m.student != id
  {
    set m | m in members && m.student != id
  }

  /** The users of teachers other than `t`. */
  function UsersWithoutTeacher(users: map<int, User>, t: int): (kept: map<int, User>)
    ensures forall u :: u in kept <==> u in users && users[u].teacher != t
    ensures forall u :: u in kept ==> kept[u] == users[u]
  {
    map u | u in users && users[u].teacher != t :: users[u]
  }

  /** The student's attendance, notes, fees and memberships, then the student. */
  function RemoveStudent(s: Store, id: int): (r: Store)
    ensures r.students.Keys == s.students.Keys - {id}
    ensures forall k :: k in r.attendance <==> k in s.attendance && k.student != id
    ensures forall k :: k in r.notes <==> k in s.notes && k.student != id
    ensures forall k :: k in r.fees <==> k in s.fees && k.student != id
    ensures forall m :: m in r.members <==> m in s.members && m.student != id
    ensures forall k :: k in r.students ==> r.students[k] == s.students[k]
    ensures forall k :: k in r.attendance ==> r.attendance[k] == s.attendance[k]
    ensures forall k :: k in r.notes ==> r.notes[k] == s.notes[k]
    ensures forall k :: k in r.fees ==> r.fees[k] == s.fees[k]
    ensures r.teachers == s.teachers && r.users == s.users && r.groups == s.groups && r.schedule == s.schedule
    ensures r.nextTeacherId == s.nextTeacherId && r.nextUserId == s.nextUserId && r.nextStudentId == s.nextStudentId
            && r.nextGroupId == s.nextGroupId && r.nextScheduleId == s.nextScheduleId
  {
    s.(attendance := Restrict(s.attendance, (k: AttendanceKey) => k.student != id),
       notes := Restrict(s.notes, (k: NoteKey) => k.student != id),
       fees := Restrict(s.fees, (k: FeeKey) => k.student != id),
       members := MembersWithoutStudent(s.members, id),
       students := s.students - {id})
  }

  /** The update of a student: its memberships are dropped, and its row, if
      there is one, is overwritten; no row is added. */
  function ReplaceStudent(s: Store, id: int, row: Student): (r: Store)
    ensures forall m :: m in r.members <==> m in s.members && m.student != id
    ensures r.students.Keys == s.students.Keys
    ensures id in s.students ==> r.students[id] == row
    ensures forall k :: k in s.students && k != id ==> r.students[k] == s.students[k]
    ensures r.teachers == s.teachers && r.users == s.users && r.groups == s.groups && r.schedule == s.schedule
    ensures r.attendance == s.attendance && r.notes == s.notes && r.fees == s.fees
    ensures r.nextTeacherId == s.nextTeacherId && r.nextUserId == s.nextUserId && r.nextStudentId == s.nextStudentId
            && r.nextGroupId == s.nextGroupId && r.nextScheduleId == s.nextScheduleId
  {
    s.(members := MembersWithoutStudent(s.members, id),
       students := if id in s.students then s.students[id := row] else s.students)
  }

  /** The schedule slots that do not belong to any of the groups. */
  function SlotsOutside(schedule: map<int, Slot>, gs: set<int>): (kept: map<int, Slot>)
    ensures forall k :: k in kept <==> k in schedule && k !in SlotsOfGroups(schedule, gs)
    ensures forall k :: k in kept ==> kept[k] == schedule[k]
    ensures forall k :: k in kept ==> !(kept[k].group.NumCell? && kept[k].group.n in gs)
  {
    map k | k in schedule && k !in SlotsOfGroups(schedule, gs) :: schedule[k]
  }

  /** The memberships of groups other than the given ones. */
  function MembersOutside(members: set<Membership>, gs: set<int>): (kept: set<Membership>)
    ensures forall m :: m in kept <==> m in members && m.group !in gs
  {
    set m | m in members && m.group !in gs
  }

  /** The groups other than the given ones. */
  function GroupsOutside(groups: map<int, Group>, gs: set<int>): (kept: map<int, Group>)
    ensures kept.Keys == groups.Keys - gs
    ensures forall g :: g in kept ==> kept[g] == groups[g]
  {
    map g | g in groups && g !in gs :: groups[g]
  }

  /** The attendance and notes taken in the groups' schedule slots, the
      groups' fees, memberships and slots, then the groups. */
  function RemoveGroups(s: Store, gs: set<int>): (r: Store)
    ensures r.groups.Keys == s.groups.Keys - gs
    ensures forall k :: k in r.schedule <==> k in s.schedule && k !in SlotsOfGroups(s.schedule, gs)
    ensures forall k :: k in r.schedule ==> !(r.schedule[k].group.NumCell? && r.schedule[k].group.n in gs)
    ensures forall k :: k in r.attendance <==> k in s.attendance && k.schedule !in SlotsOfGroups(s.schedule, gs)
    ensures forall k :: k in r.notes <==> k in s.notes && k.schedule !in SlotsOfGroups(s.schedule, gs)
    ensures forall k :: k in r.fees <==> k in s.fees && k.group !in gs
    ensures forall m :: m in r.members <==> m in s.members && m.group !in gs
    ensures forall k :: k in r.groups ==> r.groups[k] == s.groups[k]
    ensures forall k :: k in r.schedule ==> r.schedule[k] == s.schedule[k]
    ensures forall k :: k in r.attendance ==> r.attendance[k] == s.attendance[k]
    ensures forall k :: k in r.notes ==> r.notes[k] == s.notes[k]
    ensures forall k :: k in r.fees ==> r.fees[k] == s.fees[k]
    ensures r.teachers == s.teachers && r.users == s.users && r.students == s.students
    ensures r.nextTeacherId == s.nextTeacherId && r.nextUserId == s.nextUserId && r.nextStudentId == s.nextStudentId
            && r.nextGroupId == s.nextGroupId && r.nextScheduleId == s.nextScheduleId
  {
    var ss := SlotsOfGroups(s.schedule, gs);
    s.(attendance := Restrict(s.attendance, (k: AttendanceKey) => k.schedule !in ss),
       notes := Restrict(s.notes, (k: NoteKey) => k.schedule !in ss),
       fees := Restrict(s.fees, (k: FeeKey) => k.group !in gs),
       members := MembersOutside(s.members, gs),
       schedule := SlotsOutside(s.schedule, gs),
       groups := GroupsOutside(s.groups, gs))
  }

  /** Everything of the teacher's groups, then the teacher's users, then the teacher. */
  function RemoveTeacher(s: Store, t: int): (r: Store)
    ensures r.teachers.Keys == s.teachers.Keys - {t}
    ensures forall g :: g in r.groups <==> g in s.groups && s.groups[g].teacher != t
    ensures forall u :: u in r.users <==> u in s.users && s.users[u].teacher != t
    ensures forall g :: g in r.groups ==> r.groups[g].teacher != t
    ensures forall k :: k in r.teachers ==> r.teachers[k] == s.teachers[k]
    ensures forall u :: u in r.users ==> r.users[u] == s.users[u]
    ensures r.students == s.students
    ensures var rg := RemoveGroups(s, GroupsOfTeacher(s.groups, t));
      && r.groups == rg.groups && r.schedule == rg.schedule && r.members == rg.members
      && r.attendance == rg.attendance && r.notes == rg.notes && r.fees == rg.fees
    ensures forall k :: k in r.schedule ==> !(r.schedule[k].group.NumCell? && r.schedule[k].group.n in GroupsOfTeacher(s.groups, t))
    ensures forall k :: k in r.fees ==> k.group !in GroupsOfTeacher(s.groups, t)
    ensures forall m :: m in r.members ==> m.group !in GroupsOfTeacher(s.groups, t)
    ensures forall k :: k in r.attendance ==> k.schedule !in SlotsOfGroups(s.schedule, GroupsOfTeacher(s.groups, t))
    ensures forall k :: k in r.notes ==> k.schedule !in SlotsOfGroups(s.schedule, GroupsOfTeacher(s.groups, t))
    ensures r.nextTeacherId == s.nextTeacherId && r.nextUserId == s.nextUserId && r.nextStudentId == s.nextStudentId
            && r.nextGroupId == s.nextGroupId && r.nextScheduleId == s.nextScheduleId
  {
    var removed := RemoveGroups(s, GroupsOfTeacher(s.groups, t));
    removed.(users := UsersWithoutTeacher(s.users, t), teachers := s.teachers - {t})
  }

  /** Removing a student keeps the tables consistent: no membership is left
      pointing at it. */
  lemma RemoveStudentConsistent(s: Store, id: int)
    requires Consistent(s)
    ensures Consistent(RemoveStudent(s, id))
  {
    var r := RemoveStudent(s, id);
    assert r.groups == s.groups && r.users == s.users && r.teachers == s.teachers;
    assert forall m :: m in r.members ==> m in s.members && m.student != id;
  }

  /** Removing groups keeps the tables consistent: no membership is left
      pointing at them, and the remaining names stay unique. */
  lemma RemoveGroupsConsistent(s: Store, gs: set<int>)
    requires Consistent(s)
    ensures Consistent(RemoveGroups(s, gs))
  {
    var r := RemoveGroups(s, gs);
    assert r.students == s.students && r.users == s.users && r.teachers == s.teachers;
    assert forall m :: m in r.members ==> m in s.members && m.group !in gs;
  }

  /** Removing a teacher keeps the tables consistent: no user is left
      pointing at it. */
  lemma RemoveTeacherConsistent(s: Store, t: int)
    requires Consistent(s)
    ensures Consistent(RemoveTeacher(s, t))
  {
    var gs := GroupsOfTeacher(s.groups, t);
    RemoveGroupsConsistent(s, gs);
    var r := RemoveTeacher(s, t);
    assert forall u :: u in r.users ==> u in s.users && s.users[u].teacher != t;
  }

  /** A student's memberships dropped and its row overwritten if present. */
  lemma UpdateStudentConsistent(s: Store, id: int, row: Student)
    requires Consistent(s)
    ensures Consistent(ReplaceStudent(s, id, row))
  {
  }
}
