/** Fixed configuration constants of the application (src/config.rs). */
module Config {

  /** How long the pointer must stay still before its position is saved. */
  const INACTIVITY_THRESHOLD_MS: nat := 2000

  /** How long the "position restored" feedback stays visible. */
  const FEEDBACK_DURATION_MS: nat := 2000
}
