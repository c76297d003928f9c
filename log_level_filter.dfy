/** The log level of an entry and the filter enum of the activity monitor. */
module LogLevels {

  /**
   * The level of a log entry or group, in increasing severity.
   * LogLevel's declaration is not part of this model: only its order is used.
   */
  datatype LogLevel = None | Trace | Info | Warn | Error | Fatal {

    function Rank(): nat {
      match this
      case None => 0
      case Trace => 1
      case Info => 2
      case Warn => 3
      case Error => 4
      case Fatal => 5
    }

    /** `level >= LogLevel.Error`. */
    predicate AtLeastError() {
      Rank() >= LogLevel.Error.Rank()
    }
  }

  /**
   * LogLevelFilter, in the order of its values: Invalid (-1) designates an
   * unknown filter, None (0) no filter, Trace (1) logs everything, and Info
   * .. Off (2 .. 6) log less and less.
   */
  datatype LogLevelFilter = Invalid | None | Trace | Info | Warn | Error | Fatal | Off
}
