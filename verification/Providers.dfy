/** Provider-neutral attempt types shared by the session, the runner and the router. */
module Providers {
  import opened Base

  /** What is known about a provider having received the audio. */
  datatype AudioAcceptance = NotAccepted | PossiblyAccepted | Accepted

  datatype ErrorCategory =
    | InvalidArgument | InvalidState | Configuration | Authentication | Permission | Connection | Timeout | Protocol
    | RateLimited | Unavailable | Cancelled | Internal

  /** The stable error codes of the components modelled here, one constructor per code. */
  datatype ErrorCode =
    | InvalidRequestId
    | TaskAlreadyStarted
    | TaskNotStarted
    | InvalidSessionJson
    | SessionNotStreaming
    | AudioAlreadyFinished
    | AudioRequestPending
    | InvalidOpusPacket
    | NoPendingAudioRequest
    | NoAudioFrames
    | AudioNotFinished
    | SessionNotReceiving
    | InvalidResponseEnvelope
    | StartTaskAuthFailed
    | ResponseRequestMismatch
    | ResponseServiceMismatch
    | RemoteSessionFailed
    | UnexpectedTaskStarted
    | UnexpectedSessionStarted
    | StartTaskStatusFailed
    | StartSessionStatusFailed
    | StreamingStatusFailed
    | FinishSessionStatusFailed
    | RemoteStatusFailed
    | UnexpectedSessionFinished
    | MissingFinalTranscript
    | ResultBeforeSessionStarted
    | InvalidResultJson
    | EmptyFinalTranscript
    | SessionCancelled
    | TotalTimeout
    | PhaseTimeout
    | WebsocketClosedEarly
    | WebsocketFailed
    | OpusUnavailable
    | OpusEncodeFailed
    | PcmOpenFailed
    | PcmReadFailed
    | InvalidPcm
    | InvalidRunTimeout
    | SystemClockInvalid
    | SystemClockOverflow
    | MissingSessionOutcome
    | TokenRefreshFailed
    | ProviderCancelled
    | ProviderNotRegistered
    | ProviderEmptyTranscript
    | ProviderNoRoute
    | RoutingNoProvider
    | SessionInvalidState
    | SessionIdMismatch
    | TranscriptEmpty
    | EventBackpressure
    | DesktopNotArmed
    | DesktopSessionMismatch
    | PipelineFailed
    | WorkerDisconnected
    | OtherProviderCode(text: string)

  datatype VoxError = VoxError(category: ErrorCategory, code: ErrorCode, retryable: bool)

  /** A failed attempt together with its lifecycle evidence. */
  datatype AttemptFailure = AttemptFailure(error: VoxError, transportStarted: bool, acceptance: AudioAcceptance)

  function BeforeTransport(error: VoxError): AttemptFailure {
    AttemptFailure(error, false, NotAccepted)
  }

  function AfterTransport(error: VoxError, acceptance: AudioAcceptance): AttemptFailure {
    AttemptFailure(error, true, acceptance)
  }
}
