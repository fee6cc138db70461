/** Command results as the gateway and its clients exchange them. */
module GatewayContracts {

  datatype Kind = Enable | StopAndDisable | Home | Reset | SetMode | JointGroup

  datatype CommandStatus =
    Unsupported | Rejected | Accepted | Completed | Failed | TimedOut | Cancelled | Unconfirmed

  datatype ResultCode =
    Ok | CommandsDisabled | InvalidRequest | SessionMismatch | NotConnected | FeedbackStale
    | MotorNotEnabled | InvalidTarget | SpeedUnverified | SpeedOutOfRange | SafetyInterlockLatched
    | CommandInFlight | CommandIdConflict | DeviceRejected | DeviceUnconfirmed | TransportError
    | Timeout | CancelledResult

  datatype Evidence =
    NoEvidence | GatewayAccepted | TransportWritten | DeviceQueued | DeviceAck | FeedbackConfirmed

  datatype CommandResult = CommandResult(
    commandId: string, sessionId: string, kind: Kind, status: CommandStatus, code: ResultCode, evidence: Evidence)
}
