/** The request and response maps the view and its decorators read. */
module Http {

  /** Header names in canonical case, each with its text value. */
  type Headers = map<string, string>

  /** Query-string arguments, one value per key (the first value of a repeated key). */
  type Args = map<string, string>
}
