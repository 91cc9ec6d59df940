/** The application-wide enumerations (types.ts). */
module Types {

  /** Lifecycle of the one generation a session can have outstanding. */
  datatype AppState = Idle | Processing | Success | Error
}
