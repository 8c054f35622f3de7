/** Values shared by the consensus layer and the services built on it. */
module CoreTypes {

  datatype Option<+T> = None | Some(value: T)

  type NodeId = string

  /** An index into a log, or -1 for "before the first entry". */
  type Position = i: int | -1 <= i witness -1

  datatype LockType = Shared | Exclusive

  /** The commands the services replicate, with their data dictionaries as fields. */
  datatype Command =
    | LockAcquire(lockId: string, resource: string, owner: string, lockType: LockType, ttl: real)
    | LockRelease(released: string)
    | QueuePublish(msgId: string, topic: string, partition: nat, payload: string, replicas: seq<NodeId>)
    | QueueAck(acked: string, consumer: string)
    | OtherCommand(name: string)

  /** A log entry without its wall-clock timestamp, which nothing reads. */
  datatype LogEntry = LogEntry(term: nat, index: int, command: Command)
}
