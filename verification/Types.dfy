/** Values shared by every component of the node. */
module Types {

  /** The command carried by a raft log entry. */
  datatype Command = Command(op: string, key: string, value: string, idem: string)

  /** What the bytes of a log entry decode to. */
  datatype Payload = Undecodable | Decoded(cmd: Command)

  /** A committed raft log entry. */
  datatype LogItem = LogItem(index: nat, data: Payload)

  /** One row of the durable table, and one element of the write queue. */
  datatype Entry = Entry(index: nat, idem: string, key: string, value: string)

  /** What Apply hands back to the raft future. */
  datatype ApplyResult = Applied | DecodeError | UnknownOp(op: string)

  type KvMap = map<string, string>

  /** The SQLite table: primary key idx -> row. */
  type Table = map<nat, Entry>

  /** Where a database call may fail. `None` is a call that succeeds. */
  datatype Fault = None | Begin | AtRow(row: nat) | Commit
}
