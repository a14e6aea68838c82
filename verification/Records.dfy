/** What travels between the tasks: sample records through the log, messages through the queue. */
module Records {
  import opened Word

  /** `datalog/sensor_record.h`. `seqNo` counts samples from 1, modulo 2^32. */
  datatype Record = Record(captureUs: nat, seqNo: U32, codes: seq<nat>, buttons: nat)

  /** `tasks/task_consumer.h`: the consumer's messages; only the producer sends `DataReady`. */
  datatype Msg =
    | DataReady
    | Report
    | StreamToggle
    | RateToggle
    | PauseToggle
    | PrintNewest
    | Stats
    | Help
    | UnknownKey(key: char)
    | WdtTest(key: char)
}
