/** Option and Result, for the absent values and error paths of the handlers. */
module Wrappers {

  datatype Option<+T> = None | Some(value: T)

  datatype Result<+T, +E> = Ok(value: T) | Err(error: E)
}

/** What a request handler answers, reduced to "applied" or "rejected, and why". */
module Replies {

  /** The reasons behind the handlers' 400 answers. */
  datatype Reason =
    | WeakPassword          // change-password: the strength rule failed
    | MissingFields         // a required body field is falsy
    | InvalidGroupId        // group id is NaN (or, where `!groupId` is tested, 0)
    | GroupNameRequired     // group update: the trimmed name is empty
    | InvalidGradeId        // group update: grade is NaN
    | InvalidTeacherId      // group update: teacher is NaN
    | StudentIdRequired     // add-member: studentId is falsy
    | InvalidIds            // remove-member: either id is NaN or 0
    | NaNId                 // attendance: either id is NaN
    | GradeMismatch         // add-member: no group/student pair with equal grades
    | AlreadyMember         // add-member: unique constraint on GROUP_STUDENTS
    | DuplicateGroupName    // create-group: unique constraint on GROUPS.NAME
    | InvalidImageUrl       // change-teacher-image: not a Cloudinary URL

  datatype Response =
    | Success               // 200/201, changes committed
    | Created(id: int)      // 200/201 answered with the generated identifier
    | BadRequest(reason: Reason)
    | NotFound              // 404, anything done so far rolled back
    | ServerError           // 500, the failing statement and everything uncommitted rolled back
    | Unhandled             // an exception outside the handler's try block: no answer is sent
}
