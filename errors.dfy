/**
 * Go error values as the model sees them: an error carries a message, and
 * `errors.Join` builds a new error out of several, whose text is their texts
 * one per line.
 */
module Errors {
  import opened Wrappers
  import opened Text

  /** One piece of an `fmt.Errorf` format: literal text, or an integer printed with `%d`. */
  datatype Piece = Lit(text: string) | Int(n: int)

  /**
   * `Msg` is an error with a fixed text, `Formatted` one that `fmt.Errorf`
   * builds from a format with `%d` verbs, and `Join` the result of `errors.Join`.
   */
  datatype Error = Msg(text: string) | Formatted(pieces: seq<Piece>) | Join(parts: seq<Error>)

  /** The text `fmt.Errorf` produces from the pieces, in order. */
  function Render(pieces: seq<Piece>): string
  {
    if pieces == [] then ""
    else
      (match pieces[0] case Lit(t) => t case Int(n) => FormatInt(n)) + Render(pieces[1..])
  }

  /** What `Error()` returns. */
  function Message(e: Error): string
    decreases e
  {
    match e
    case Msg(t) => t
    case Formatted(ps) => Render(ps)
    case Join(ps) => JoinWith(seq(|ps|, i requires 0 <= i < |ps| => Message(ps[i])), "\n")
  }

  /** The messages of several errors, in order. */
  function Messages(errs: seq<Error>): (r: seq<string>)
    ensures |r| == |errs|
    ensures forall i :: 0 <= i < |errs| ==> r[i] == Message(errs[i])
  {
    seq(|errs|, i requires 0 <= i < |errs| => Message(errs[i]))
  }

  /**
   * The switch that ends `Run` and `flatten`: no error gives nil, one error is
   * returned itself, more are joined.
   */
  function Collapse(errs: seq<Error>): (r: Option<Error>)
    ensures r.None? <==> errs == []
    ensures |errs| == 1 ==> r == Some(errs[0])
    ensures |errs| >= 2 ==> r == Some(Join(errs))
  {
    match |errs|
    case 0 => None
    case 1 => Some(errs[0])
    case _ => Some(Join(errs))
  }

  /**
   * Returning the single error itself instead of a one-part join changes no
   * text: whatever the count, the collapsed error reads as all the messages,
   * one per line.
   */
  lemma {:induction false} CollapseKeepsText(errs: seq<Error>)
    requires errs != []
    ensures Collapse(errs).Some?
    ensures Message(Collapse(errs).value) == JoinWith(Messages(errs), "\n")
  {
    if |errs| >= 2 {
      assert Messages(errs) == seq(|errs|, i requires 0 <= i < |errs| => Message(errs[i]));
    }
  }
}
