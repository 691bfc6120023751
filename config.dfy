/** The public header of the library: the four log levels and the
    configuration record that the session points to. The record is a class
    because the library keeps a pointer to it and updates its fields in
    place, and a caller may hand over a record it keeps using itself. */
module Configuration {

  /** Log levels; a message level is sent when it is at most the configured
      threshold, so a higher number permits more verbose output. */
  const NONE: int := 0
  const INFO: int := 1
  const ERROR: int := 2
  const DEBUG: int := 3

  /** The three levels that carry a severity tag on the wire. */
  predicate IsSeverity(level: int)
  {
    level == INFO || level == ERROR || level == DEBUG
  }

  /** The configuration record. All three fields are plain C ints:
      `initialized` is used as a flag (zero or not), `socketFD` is -1 while
      no socket is held, and `logLevel` is the sending threshold. */
  class Config {
    var initialized: int
    var socketFD: int
    var logLevel: int

    constructor (initialized: int, socketFD: int, logLevel: int)
      ensures this.initialized == initialized
      ensures this.socketFD == socketFD
      ensures this.logLevel == logLevel
    {
      this.initialized := initialized;
      this.socketFD := socketFD;
      this.logLevel := logLevel;
    }
  }
}
