/** Records exchanged with the task service: the stored task, the two request
    payloads, the response envelope and the errors the service raises. */
module Dto {

  datatype Option<+T> = None | Some(value: T) {
    /** The wrapped value, or `default` when there is none. */
    function GetOr(default: T): T {
      match this
      case Some(v) => v
      case None => default
    }
  }

  /** The two values of the task status enumeration. */
  datatype TaskStatus = OPEN | DONE

  /** A stored task. `dueDate` is a timestamp in milliseconds. */
  datatype Task = Task(id: string, title: string, description: string, dueDate: int, status: TaskStatus)

  /** The creation payload. `dueDate` is what `new Date(...)` makes of the
      payload's date: `None` stands for an Invalid Date (its time is NaN). */
  datatype CreateTaskDto = CreateTaskDto(title: string, description: string, dueDate: Option<int>)

  /** The update payload. Every field but `id` may be absent (`None`); the due
      date is present when the payload's value is truthy, and is then already a
      parsed timestamp. */
  datatype UpdateTaskDto = UpdateTaskDto(
    id: string,
    title: Option<string>,
    description: Option<string>,
    dueDate: Option<int>,
    status: Option<TaskStatus>)

  /** The envelope every successful operation returns. */
  datatype ResponseDto<+T> = ResponseDto(statusCode: int, body: T)

  /** `NotFound` is the service's NotFoundException('Task not found');
      `Internal(msg)` its InternalServerErrorException carrying `msg`. */
  datatype Error = NotFound | Internal(msg: string)

  datatype Result<+T> = Ok(value: T) | Err(error: Error)

  const CREATED: int := 201
  const OK: int := 200

  /** The message thrown when a creation payload's due date is rejected. */
  const InvalidDueDateMessage: string := "Due date cannot be in the past or invalid date format"
  /** The prefix the catch block puts in front of the caught message. */
  const InternalPrefix: string := "Something went wrong: "
}
