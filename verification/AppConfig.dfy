/** The settings of `config/app_config.h` that the models depend on. */
module AppConfig {
  import opened Word

  const LOG_CAPACITY: U32 := 4096
  const READ_BATCH: U32 := 16
  const DRAIN_BATCHES_MAX: U32 := 4
  const QUEUE_LEN: U32 := 16
}
