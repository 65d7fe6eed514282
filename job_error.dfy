/** The worker library's error type: a single variant carrying a command line. */
module JobErrors {

  datatype JobError = InvalidCommand(commandLine: string)

  /** `Display` for `JobError`: the same text whatever the command line. */
  function Message(e: JobError): (r: string)
    ensures r == "Invalid Job"
  {
    "Invalid Job"
  }
}
