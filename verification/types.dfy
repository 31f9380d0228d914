/** Record shapes shared by every screen of the team-collaboration client.

    Times (creation stamps, due dates, "now") are integers counting
    milliseconds since the Unix epoch; identifiers and free text are strings.
    Optional columns of a row are `Option`s. */
module Types {

  datatype Option<+T> = None | Some(value: T) {
    function GetOr(default: T): T {
      match this
      case Some(v) => v
      case None => default
    }
  }

  type UserId = string

  /** Milliseconds since 1970-01-01T00:00:00Z. */
  type Millis = int

  const MillisPerMinute: int := 60_000
  const MillisPerHour: int := 3_600_000
  const MillisPerDay: int := 86_400_000

  datatype Role = Admin | Member

  datatype User = User(
    id: UserId,
    email: string,
    name: string,
    role: Role,
    avatar: Option<string>,
    skills: Option<seq<string>>,
    interests: Option<seq<string>>,
    points: int,
    createdAt: Millis)

  /** The three task states; a task only ever moves forward through them. */
  datatype Status = NotStarted | InProgress | Completed

  datatype Priority = High | Medium | Low

  datatype Task = Task(
    id: string,
    title: string,
    description: Option<string>,
    assignedTo: UserId,
    createdBy: UserId,
    priority: Priority,
    status: Status,
    dueDate: Millis,
    createdAt: Millis,
    updatedAt: Millis)

  datatype MessageKind = TextMessage | ImageMessage | LinkMessage

  /** Emoji -> ids of the users who reacted with it. */
  type Reactions = map<string, seq<UserId>>

  datatype Message = Message(
    id: string,
    userId: UserId,
    content: string,
    kind: MessageKind,
    reactions: Option<Reactions>,
    createdAt: Millis)

  datatype Category = Notes | Research | Ideas | Documents

  datatype Resource = Resource(
    id: string,
    title: string,
    description: Option<string>,
    url: Option<string>,
    filePath: Option<string>,
    category: Category,
    uploadedBy: UserId,
    createdAt: Millis)

  /** Months are numbered from 0 (January) to 11 (December), as JavaScript's Date does. */
  type Month = m: int | 0 <= m < 12

  /** A calendar day in the proleptic Gregorian calendar. */
  datatype CivilDate = CivilDate(year: int, month: Month, day: int)

  /** An event's start or end: its calendar day plus the minute within that day. */
  datatype DateTime = DateTime(date: CivilDate, minuteOfDay: int)

  datatype EventKind = Deadline | Meeting | Event

  datatype CalendarEvent = CalendarEvent(
    id: string,
    title: string,
    description: Option<string>,
    start: DateTime,
    end: DateTime,
    kind: EventKind,
    createdBy: UserId,
    createdAt: Millis)
}
