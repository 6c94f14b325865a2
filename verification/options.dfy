/** `RequestResponseLoggerOptions`: the configuration one middleware instance
    reads for every exchange. */
module Options {

  datatype LoggerOptions = LoggerOptions(
    logHeaders: bool,
    logQueryString: bool,
    logRequestBody: bool,
    logResponseBody: bool,
    maskSensitiveData: bool,
    sensitiveFields: seq<string>,
    enableCorrelationId: bool,
    useExistingCorrelationId: bool,
    correlationIdHeader: string,
    /** Path prefixes, matched ignoring case, whose requests are not logged. */
    ignoredPaths: seq<string>)

  /** The options a freshly constructed instance holds. */
  function Defaults(): (o: LoggerOptions)
    ensures o.logHeaders && o.logQueryString && o.logRequestBody && o.logResponseBody
    ensures !o.maskSensitiveData
    ensures o.sensitiveFields == ["password", "token", "authorization", "apiKey"]
    ensures o.enableCorrelationId && o.useExistingCorrelationId
    ensures o.correlationIdHeader == "X-Correlation-ID"
    ensures o.ignoredPaths == []
  {
    LoggerOptions(
      logHeaders := true,
      logQueryString := true,
      logRequestBody := true,
      logResponseBody := true,
      maskSensitiveData := false,
      sensitiveFields := ["password", "token", "authorization", "apiKey"],
      enableCorrelationId := true,
      useExistingCorrelationId := true,
      correlationIdHeader := "X-Correlation-ID",
      ignoredPaths := [])
  }
}
