/** The request-validation middleware: it parses the body (or the query) with
    a schema, replaces it with the parsed value, and turns a schema failure
    into a 400 AppError whose message lists the issues. The schema library's
    parse is a parameter: its outcome for the request at hand. */
module Validation {
  import opened Wrappers
  import opened Json
  import opened Seqs
  import opened Text
  import opened ErrorHandler

  /** One step of an issue's path: an object key or an array index. */
  datatype Segment = Key(name: string) | Index(n: nat)

  datatype Issue = Issue(path: seq<Segment>, message: string)

  /** What `schema.parse` did: returned a value, threw a schema error, or threw something else. */
  datatype ParseOutcome =
    | Parsed(value: Value)
    | SchemaError(issues: seq<Issue>)
    | Thrown(err: Error)

  /** The call the middleware makes: `next()` or `next(err)`. */
  datatype NextCall = Continue | Fail(err: Error)

  /** The request part after the middleware ran, and how it called `next`. */
  datatype Validated = Validated(input: Value, next: NextCall)

  function SegmentText(s: Segment): string {
    match s
    case Key(name) => name
    case Index(n) => NatToString(n)
  }

  /** `${e.path.join('.')}: ${e.message}`. */
  function IssueText(i: Issue): string {
    Join(Map(i.path, SegmentText), ".") + ": " + i.message
  }

  const MessagePrefix: string := "Validation error: "

  /** The message of the AppError a schema failure becomes. */
  function ValidationMessage(issues: seq<Issue>): (m: string)
    ensures StartsWith(m, MessagePrefix)
  {
    MessagePrefix + Join(Map(issues, IssueText), ", ")
  }

  /** `validateBody` and `validateQuery`: both run the same logic on their
      part of the request. */
  function Validate(input: Value, outcome: ParseOutcome): (r: Validated)
    ensures outcome.Parsed? ==> r == Validated(outcome.value, Continue)
    ensures outcome.SchemaError? ==> r.input == input && r.next.Fail?
    ensures outcome.SchemaError? ==> r.next.err == AppError(400, ValidationMessage(outcome.issues), true)
    ensures outcome.Thrown? ==> r == Validated(input, Fail(outcome.err))
  {
    match outcome
    case Parsed(v) => Validated(v, Continue)
    case SchemaError(issues) => Validated(input, Fail(MakeAppError(400, ValidationMessage(issues), None)))
    case Thrown(e) => Validated(input, Fail(e))
  }

  /** A schema failure always reaches the client as a 400 with the listed issues. */
  lemma SchemaErrorAnswers400(input: Value, issues: seq<Issue>)
    ensures var r := HandleError(Validate(input, SchemaError(issues)).next.err);
      r.status == 400 && r.body.json.fields["message"] == JStr(ValidationMessage(issues))
  {
  }

  /** Each further issue adds ", " and its own text to the message. */
  lemma {:induction false} MessageAppend(issues: seq<Issue>, i: Issue)
    requires |issues| > 0
    ensures ValidationMessage(issues + [i]) == ValidationMessage(issues) + ", " + IssueText(i)
  {
    JoinAppend(Map(issues, IssueText), IssueText(i), ", ");
    assert Map(issues + [i], IssueText) == Map(issues, IssueText) + [IssueText(i)];
  }

  /** A single issue at a one-key path reads "Validation error: key: message". */
  lemma SingleIssue(key: string, message: string)
    ensures ValidationMessage([Issue([Key(key)], message)]) == "Validation error: " + key + ": " + message
  {
  }
}
