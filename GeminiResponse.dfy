/** The response schema. A candidate reuses the request's `Content`, so the parts of
    an answer have the same shape as the parts of a question. */
module ResponseModel {
  import opened Wrappers
  import opened RequestModel

  /** One generated answer; its content may be missing. */
  datatype Candidate = Candidate(content: Option<Content>)

  /** The decoded response. A missing candidate list (`None`) is a different value
      from an empty one (`Some([])`). */
  datatype GeminiResponse = GeminiResponse(candidates: Option<seq<Candidate>>)
}
