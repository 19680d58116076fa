/** The decoded configuration of the byte-offset rule (rules/config.go). */
module Config {

  /** One `attribute { name = ..., message = ... }` block; an omitted message is "". */
  datatype CommentRule = CommentRule(name: string, message: string)

  /** The whole rule block: the configured attributes, in configuration order. */
  datatype InputCommentRuleConfig = InputCommentRuleConfig(attributes: seq<CommentRule>)
}
