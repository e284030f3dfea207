/** The events that the services send each other. */
module Events {
  datatype ReadyEvent = ReadyEvent(notificationId: string, channel: string, recipient: string,
                                   content: string, priority: string, maxAttempts: int)

  datatype StatusEvent = StatusEvent(notificationId: string, status: string, attemptNumber: int,
                                     httpStatusCode: int, providerMessageId: string,
                                     errorMessage: string, latencyMs: int)
}
