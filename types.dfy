/** The records exchanged with the review service (src/types.ts). */
module Types {
  import opened Wrappers

  /** The five categorised lists of review points. */
  datatype CodeReview = CodeReview(
    codeStructure: seq<string>,
    namingConventions: seq<string>,
    codeQuality: seq<string>,
    performance: seq<string>,
    bestPractices: seq<string>)

  /** One review: the categorised points and the suggested rewrite. */
  datatype ReviewResponse = ReviewResponse(review: CodeReview, refactoredCode: string)

  /** The completion envelope. The declared type makes every field present,
      but the client reads it through optional chaining, so a missing
      message or content is representable here. */
  datatype Message = Message(content: Option<string>)

  datatype Choice = Choice(message: Option<Message>)

  datatype DeepseekResponse = DeepseekResponse(choices: seq<Choice>)
}
