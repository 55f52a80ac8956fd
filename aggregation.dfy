/**
 * The server's evaluation cycle without the plumbing: draining the monitors'
 * results into errors and warnings, choosing the response code, and writing
 * the numbered body lines.
 */
module Aggregation {
  import opened Wrappers
  import opened Text
  import opened Errors
  import opened Config
  import opened Healthcheck

  // ---------------------------------------------------------------------------
  // Classification of the results, in arrival order

  /** What one received result adds to the error list: its `err`, nil or not, when it is not ok. */
  function ErrorOf(arrival: Option<Result>): seq<Option<Error>> {
    if arrival.Some? && !arrival.value.ok then [arrival.value.err] else []
  }

  /** What one received result adds to the warning list: its `err`, when it is ok and carries one. */
  function WarningOf(arrival: Option<Result>): seq<Error> {
    if arrival.Some? && arrival.value.ok && arrival.value.err.Some? then [arrival.value.err.value] else []
  }

  function ErrorsOf(arrivals: seq<Option<Result>>): seq<Option<Error>>
    decreases |arrivals|
  {
    if arrivals == [] then [] else ErrorOf(arrivals[0]) + ErrorsOf(arrivals[1..])
  }

  function WarningsOf(arrivals: seq<Option<Result>>): seq<Error>
    decreases |arrivals|
  {
    if arrivals == [] then [] else WarningOf(arrivals[0]) + WarningsOf(arrivals[1..])
  }

  /** Classifying a longer arrival sequence extends both lists, in order. */
  lemma ClassifyAppend(a: seq<Option<Result>>, b: seq<Option<Result>>)
    ensures ErrorsOf(a + b) == ErrorsOf(a) + ErrorsOf(b)
    ensures WarningsOf(a + b) == WarningsOf(a) + WarningsOf(b)
  {
    ErrorsAppend(a, b);
    WarningsAppend(a, b);
  }

  lemma {:induction false} ErrorsAppend(a: seq<Option<Result>>, b: seq<Option<Result>>)
    ensures ErrorsOf(a + b) == ErrorsOf(a) + ErrorsOf(b)
    decreases |a|
  {
    if a == [] {
      assert a + b == b;
    } else {
      var ab := a + b;
      assert ab[0] == a[0];
      assert ab[1..] == a[1..] + b;
      ErrorsAppend(a[1..], b);
    }
  }

  lemma {:induction false} WarningsAppend(a: seq<Option<Result>>, b: seq<Option<Result>>)
    ensures WarningsOf(a + b) == WarningsOf(a) + WarningsOf(b)
    decreases |a|
  {
    if a == [] {
      assert a + b == b;
    } else {
      var ab := a + b;
      assert ab[0] == a[0];
      assert ab[1..] == a[1..] + b;
      WarningsAppend(a[1..], b);
    }
  }

  /**
   * The verdict of a result is where the drain files it: a failing result adds
   * its `err` to the errors, a degraded one its error to the warnings, and a
   * healthy one nothing.
   */
  lemma VerdictFiling(r: Result)
    ensures VerdictOf(r) == Failing <==> ErrorOf(Some(r)) == [r.err] && WarningOf(Some(r)) == []
    ensures VerdictOf(r) == Degraded <==> ErrorOf(Some(r)) == [] && WarningOf(Some(r)) != []
    ensures VerdictOf(r) == Healthy <==> ErrorOf(Some(r)) == [] && WarningOf(Some(r)) == []
  {
  }

  /** Receiving the next result extends each list by what that result adds. */
  lemma ClassifyNext(arrivals: seq<Option<Result>>, received: nat)
    requires received < |arrivals|
    ensures ErrorsOf(arrivals[..received + 1]) == ErrorsOf(arrivals[..received]) + ErrorOf(arrivals[received])
    ensures WarningsOf(arrivals[..received + 1]) == WarningsOf(arrivals[..received]) + WarningOf(arrivals[received])
  {
    var x := arrivals[received];
    assert arrivals[..received + 1] == arrivals[..received] + [x];
    ClassifyAppend(arrivals[..received], [x]);
    assert ErrorsOf([x]) == ErrorOf(x) + ErrorsOf([]);
    assert WarningsOf([x]) == WarningOf(x) + WarningsOf([]);
  }

  /** Each result lands in at most one list, and nil results in neither. */
  lemma {:induction false} ClassifyBound(arrivals: seq<Option<Result>>)
    ensures |ErrorsOf(arrivals)| + |WarningsOf(arrivals)| <= |arrivals|
    ensures |ErrorsOf(arrivals)| + |WarningsOf(arrivals)| <= |arrivals| - NilCount(arrivals)
    decreases |arrivals|
  {
    if arrivals != [] {
      ClassifyBound(arrivals[1..]);
    }
  }

  /** How many of the results received are nil. */
  function NilCount(arrivals: seq<Option<Result>>): (n: nat)
    ensures n <= |arrivals|
    decreases |arrivals|
  {
    if arrivals == [] then 0 else (if arrivals[0].None? then 1 else 0) + NilCount(arrivals[1..])
  }

  /** There is no error exactly when every result received is ok. */
  lemma {:induction false} NoErrorsIff(arrivals: seq<Option<Result>>)
    ensures ErrorsOf(arrivals) == [] <==> forall x :: x in arrivals && x.Some? ==> x.value.ok
    decreases |arrivals|
  {
    if arrivals != [] {
      NoErrorsIff(arrivals[1..]);
      assert forall x :: x in arrivals <==> x == arrivals[0] || x in arrivals[1..];
    }
  }

  /** There is no warning exactly when no ok result carries an error. */
  lemma {:induction false} NoWarningsIff(arrivals: seq<Option<Result>>)
    ensures WarningsOf(arrivals) == [] <==> forall x :: x in arrivals && x.Some? && x.value.ok ==> x.value.err.None?
    decreases |arrivals|
  {
    if arrivals != [] {
      NoWarningsIff(arrivals[1..]);
      assert forall x :: x in arrivals <==> x == arrivals[0] || x in arrivals[1..];
    }
  }

  /**
   * The drain: receives exactly `|arrivals|` results, counting down, skips
   * nil ones, and sorts each into the errors (not ok, even with a nil error)
   * or the warnings (ok with an error).
   */
  method Drain(arrivals: seq<Option<Result>>) returns (errs: seq<Option<Error>>, wrns: seq<Error>)
    ensures errs == ErrorsOf(arrivals)
    ensures wrns == WarningsOf(arrivals)
  {
    var count := |arrivals|;
    var received := 0;
    errs, wrns := [], [];
    while count > 0
      invariant 0 <= count <= |arrivals| && received == |arrivals| - count
      invariant errs == ErrorsOf(arrivals[..received])
      invariant wrns == WarningsOf(arrivals[..received])
    {
      count := count - 1;
      var res := arrivals[received];
      ClassifyNext(arrivals, received);
      received := received + 1;
      if res.Some? {
        if !res.value.ok {
          errs := errs + [res.value.err];
        } else if res.value.err.Some? {
          wrns := wrns + [res.value.err.value];
        }
      }
    }
    assert arrivals[..received] == arrivals;
  }

  // ---------------------------------------------------------------------------
  // The response

  /** The response code: any error wins, then any warning, else ok. */
  function Status(codes: HttpStatus, errs: seq<Option<Error>>, wrns: seq<Error>): int {
    if |errs| > 0 then codes.error
    else if |wrns| > 0 then codes.warning
    else codes.ok
  }

  /** `%s` of an error value; Go prints a nil error as "%!s(<nil>)". */
  function ErrorText(err: Option<Error>): string {
    match err
    case None => "%!s(<nil>)"
    case Some(e) => Message(e)
  }

  function ErrorLine(idx: nat, err: Option<Error>): string {
    Decimal(idx) + (": error: " + ErrorText(err) + "\n")
  }

  function WarningLine(idx: nat, warn: Error): string {
    Decimal(idx) + (": warning: " + Message(warn) + "\n")
  }

  /** A warning line when there is no error: no "warning:" tag. */
  function PlainLine(idx: nat, warn: Error): string {
    Decimal(idx) + (": " + Message(warn) + "\n")
  }

  /** The body as a sequence of lines: empty, errors then tagged warnings, or untagged warnings. */
  function Body(errs: seq<Option<Error>>, wrns: seq<Error>): (lines: seq<string>)
    ensures |lines| == if |errs| > 0 then |errs| + |wrns| else |wrns|
  {
    if |errs| > 0 then
      seq(|errs|, i requires 0 <= i < |errs| => ErrorLine(i, errs[i]))
      + seq(|wrns|, j requires 0 <= j < |wrns| => WarningLine(|errs| + j, wrns[j]))
    else
      seq(|wrns|, j requires 0 <= j < |wrns| => PlainLine(j, wrns[j]))
  }

  /**
   * `report`: picks the code and writes the lines one at a time; with no
   * error and no warning it writes the ok code and no body.
   */
  method Report(codes: HttpStatus, errs: seq<Option<Error>>, wrns: seq<Error>)
    returns (status: int, lines: seq<string>)
    ensures status == Status(codes, errs, wrns)
    ensures lines == Body(errs, wrns)
  {
    lines := [];
    if |errs| == 0 && |wrns| == 0 {
      status := codes.ok;
      return;
    }
    if |errs| > 0 {
      status := codes.error;
      var errLines := [];
      for idx := 0 to |errs|
        invariant |errLines| == idx
        invariant forall k :: 0 <= k < idx ==> errLines[k] == ErrorLine(k, errs[k])
      {
        errLines := errLines + [ErrorLine(idx, errs[idx])];
      }
      var offset := |errs|;
      var wrnLines := [];
      for idx := 0 to |wrns|
        invariant |wrnLines| == idx
        invariant forall k :: 0 <= k < idx ==> wrnLines[k] == WarningLine(offset + k, wrns[k])
      {
        wrnLines := wrnLines + [WarningLine(offset + idx, wrns[idx])];
      }
      assert errLines == seq(|errs|, i requires 0 <= i < |errs| => ErrorLine(i, errs[i]));
      assert wrnLines == seq(|wrns|, j requires 0 <= j < |wrns| => WarningLine(|errs| + j, wrns[j]));
      lines := errLines + wrnLines;
    } else {
      status := codes.warning;
      for idx := 0 to |wrns|
        invariant |lines| == idx
        invariant forall k :: 0 <= k < idx ==> lines[k] == PlainLine(k, wrns[k])
      {
        lines := lines + [PlainLine(idx, wrns[idx])];
      }
    }
  }

  // ---------------------------------------------------------------------------
  // Properties of the response

  /**
   * The code depends only on whether each list is empty: the arrival order of
   * the results cannot change it.
   */
  lemma StatusIgnoresArrivalOrder(codes: HttpStatus, a: seq<Option<Result>>, b: seq<Option<Result>>)
    requires multiset(a) == multiset(b)
    ensures Status(codes, ErrorsOf(a), WarningsOf(a)) == Status(codes, ErrorsOf(b), WarningsOf(b))
  {
    assert forall x :: x in a <==> x in b by {
      forall x ensures x in a <==> x in b {
        assert x in a <==> x in multiset(a);
        assert x in b <==> x in multiset(b);
      }
    }
    NoErrorsIff(a);
    NoErrorsIff(b);
    NoWarningsIff(a);
    NoWarningsIff(b);
  }

  /** All results healthy (or nil): the ok code and an empty body. */
  lemma {:induction false} AllHealthy(codes: HttpStatus, arrivals: seq<Option<Result>>)
    requires forall x :: x in arrivals && x.Some? ==> x.value.ok && x.value.err.None?
    ensures Status(codes, ErrorsOf(arrivals), WarningsOf(arrivals)) == codes.ok
    ensures Body(ErrorsOf(arrivals), WarningsOf(arrivals)) == []
  {
    NoErrorsIff(arrivals);
    NoWarningsIff(arrivals);
  }

  /** One failing result is enough for the error code, whatever the others report. */
  lemma AnyFailureDominates(codes: HttpStatus, arrivals: seq<Option<Result>>, i: nat)
    requires i < |arrivals| && arrivals[i].Some? && !arrivals[i].value.ok
    ensures Status(codes, ErrorsOf(arrivals), WarningsOf(arrivals)) == codes.error
  {
    NoErrorsIff(arrivals);
    assert arrivals[i] in arrivals;
  }

  /** No failing result but one warning: the warning code. */
  lemma WarningsOnly(codes: HttpStatus, arrivals: seq<Option<Result>>, i: nat)
    requires forall x :: x in arrivals && x.Some? ==> x.value.ok
    requires i < |arrivals| && arrivals[i].Some? && arrivals[i].value.err.Some?
    ensures Status(codes, ErrorsOf(arrivals), WarningsOf(arrivals)) == codes.warning
  {
    NoErrorsIff(arrivals);
    NoWarningsIff(arrivals);
    assert arrivals[i] in arrivals;
  }

  /** The index a reader finds at the start of a line: the digits before the first ':'. */
  function LeadingIndex(line: string): Option<nat> {
    ParseDigits(TakeUntil(line, ':'), 10)
  }

  lemma LeadingIndexOf(idx: nat, rest: string)
    requires |rest| > 0 && rest[0] == ':'
    ensures LeadingIndex(Decimal(idx) + rest) == Some(idx)
  {
    DigitsAreDigits(idx, 10);
    assert ':' !in Decimal(idx) by {
      forall k | 0 <= k < |Decimal(idx)| ensures Decimal(idx)[k] != ':' {
        assert IsDigit(Decimal(idx)[k], 10);
      }
    }
    TakeUntilPrefix(Decimal(idx), rest, ':');
    ParseDigitsOfDigits(idx, 10);
  }

  /**
   * The body's lines are numbered 0, 1, ... without a gap: error lines first,
   * and the warning lines continue the count after them.
   */
  lemma BodyNumbering(errs: seq<Option<Error>>, wrns: seq<Error>)
    ensures forall k :: 0 <= k < |Body(errs, wrns)| ==> LeadingIndex(Body(errs, wrns)[k]) == Some(k)
  {
    var body := Body(errs, wrns);
    forall k | 0 <= k < |body|
      ensures LeadingIndex(body[k]) == Some(k)
    {
      if |errs| > 0 && k < |errs| {
        LeadingIndexOf(k, ": error: " + ErrorText(errs[k]) + "\n");
      } else if |errs| > 0 {
        LeadingIndexOf(k, ": warning: " + Message(wrns[k - |errs|]) + "\n");
      } else {
        LeadingIndexOf(k, ": " + Message(wrns[k]) + "\n");
      }
    }
  }
}
