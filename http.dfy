/**
 * What the two look-up services (dni_service.go, ruc_service.go) share: the
 * HTTP GET they make, taken as a parameter, and the message of a successful
 * consultation.
 */
module Http {
  import opened Wrappers

  /** An HTTP answer whose body was read in full. */
  datatype HttpReply = HttpReply(statusCode: int, body: string)

  /**
   * A GET of a URL: the reply, or an error text. DniService wraps that text
   * itself as "Error de conexión: ..."; RucService returns it as the whole
   * error, so for the RUC consultations the text already carries Go's
   * "error ejecutando request: " or "error leyendo respuesta: " prefix.
   */
  type Fetch = string -> Result<HttpReply, string>

  const ConsultOk := "Consulta exitosa"
}
