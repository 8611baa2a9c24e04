/** The constants the server is built around, with the facts about their lengths that its byte counts rely on. */
module ServerH {
  import opened LibC

  const INTENDED_ERROR: int := 1
  const INVALID_FILE_DESC: int := -1
  const SUCCESS: int := 0
  const EXIT_ON_ERROR: int := 1
  /** The value of !EXIT_ON_ERROR, the flag every call outside startup passes. */
  const NO_EXIT_ON_ERROR: int := 0

  const MAX_CLIENT_MSG_LENGTH: nat := 99999
  const MAX_CLIENT_CONNECTIONS: nat := 1000

  const HTTP_400_RES: string := "HTTP/1.0 400 Bad Request\n"
  const HTTP_200_RES: string := "HTTP/1.0 200 OK\n\n"
  const GET_REQUEST: string := "GET\0"

  const HTTP_1_0: string := "HTTP/1.0"
  const HTTP_1_1: string := "HTTP/1.1"

  /** The byte counts the server passes to write and send. */
  const BAD_REQUEST_LENGTH: nat := 25
  const OK_HEADER_LENGTH: nat := 17
  const METHOD_COMPARE_LENGTH: nat := 4
  const PROTOCOL_COMPARE_LENGTH: nat := 8

  /**
   * The 400 line is sent whole and without its NUL: it is exactly 25 bytes,
   * a status line ended by a bare LF.
   */
  lemma BadRequestLineSentWhole()
    ensures |HTTP_400_RES| == BAD_REQUEST_LENGTH
    ensures LiteralBytes(HTTP_400_RES, BAD_REQUEST_LENGTH) == HTTP_400_RES
    ensures NulFree(HTTP_400_RES)
    ensures HTTP_400_RES == "HTTP/1.0 400 Bad Request" + "\n"
  {
  }

  /**
   * The 200 header is sent whole and without its NUL: it is exactly 17
   * bytes, the status line and then an empty line, each ended by a bare LF.
   */
  lemma OkHeaderSentWhole()
    ensures |HTTP_200_RES| == OK_HEADER_LENGTH
    ensures LiteralBytes(HTTP_200_RES, OK_HEADER_LENGTH) == HTTP_200_RES
    ensures NulFree(HTTP_200_RES)
    ensures HTTP_200_RES == "HTTP/1.0 200 OK" + "\n" + "\n"
  {
  }

  /**
   * The method literal carries its NUL inside the 4 compared bytes, and the
   * protocol literals are exactly as long as the 8 compared bytes.
   */
  lemma CompareLiteralsFitLengths()
    ensures GET_REQUEST == "GET" + "\0" && |GET_REQUEST| == METHOD_COMPARE_LENGTH
    ensures |HTTP_1_0| == PROTOCOL_COMPARE_LENGTH && NulFree(HTTP_1_0)
    ensures |HTTP_1_1| == PROTOCOL_COMPARE_LENGTH && NulFree(HTTP_1_1)
  {
  }
}
