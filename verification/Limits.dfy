/** The bounds of the wire contract. */
module Limits {
  const DEFAULT_NEXT_POLL_SECONDS := 30
  const MAX_NEXT_POLL_SECONDS := 3600
  const MAX_FULL_REPORT_SECONDS := 86400
  const MIN_HOST_REPORT_SECONDS := 5
  const MAX_HOST_REPORT_SECONDS := 3600

  const MAX_CAPABILITIES_PER_REPORT := 64
  const MAX_CAPABILITY_BYTES := 128
  const MAX_TASKS_PER_RESPONSE := 64
  const MAX_TASK_RESULTS_PER_REPORT := 256
  const MAX_TASK_ID_BYTES := 128
  const MAX_TASK_KIND_BYTES := 96
  const MAX_TASK_ARGS_BYTES := 0x10_0000
  const MAX_TASK_RESULT_BYTES := 0x10_0000
  const MAX_TASK_ARGS_BYTES_PER_RESPONSE := 0x40_0000
  const MAX_TASK_RESULT_BYTES_PER_REPORT := 0x40_0000
  const MAX_TASK_ERROR_CODE_BYTES := 128
  const MAX_TASK_ERROR_BYTES := 4096

  const MAX_ISSUES_PER_REPORT := 256
  const MAX_ISSUE_CODE_BYTES := 128
  const MAX_ISSUE_KEY_BYTES := 512
  const MAX_ISSUE_DETAIL_BYTES := 4096

  const MAX_CONGESTION_CONTROL_BYTES := 32
  const MAX_UNAVAILABLE_TOKEN_BYTES := 64
  const MAX_COUNTER_EPOCH_BYTES := 128
  const MAX_BOOT_ID_BYTES := 64
  const MAX_PLATFORM_FIELD_BYTES := 32
  const MAX_KERNEL_RELEASE_BYTES := 128
  const MAX_INTERFACE_NAME_BYTES := 64
  const SAMPLE_ID_BYTES := 32

  const MAX_DIAGNOSTICS_EVENTS := 200
  const MAX_DIAGNOSTICS_SUMMARY_BYTES := 512
}
