/** The decoded shape of an analyze reply (internal/ssllabs/models.go). */
module Models {

  /** One server address behind the assessed host. */
  datatype Endpoint = Endpoint(ipAddress: string, statusMessage: string, grade: string)

  /** The root of the analyze reply: the host, the assessment status and its endpoints. */
  datatype Response = Response(host: string, status: string, endpoints: seq<Endpoint>)

  const AssessmentReady := "READY"
  const AssessmentError := "ERROR"

  /** The assessment statuses that end the polling loop. */
  predicate IsTerminalStatus(status: string) {
    status == AssessmentReady || status == AssessmentError
  }
}
