/**
 * The configuration values the server reads, and `flatten`, which folds a
 * list of possibly-nil errors into one error.
 */
module Config {
  import opened Wrappers
  import opened Errors

  /** The three configured response codes. */
  datatype HttpStatus = HttpStatus(ok: int, warning: int, error: int)

  /** Durations in nanoseconds, as Go's `time.Duration`; either may be negative or zero. */
  datatype Healthcheck = Healthcheck(blockAgeThreshold: int, cacheCoolOff: int, timeout: int)

  /** The whole configuration; an empty base URL disables that upstream. */
  datatype Config = Config(
    httpStatus: HttpStatus,
    healthcheck: Healthcheck,
    gethBaseURL: string,
    lighthouseBaseURL: string,
    opNodeBaseURL: string,
    rethBaseURL: string)

  /** The non-nil entries of `errs`, unwrapped, in their original order. */
  function NonNil(errs: seq<Option<Error>>): (r: seq<Error>)
    ensures |r| <= |errs|
    decreases |errs|
  {
    if errs == [] then []
    else (if errs[0].Some? then [errs[0].value] else []) + NonNil(errs[1..])
  }

  lemma {:induction false} NonNilAppend(a: seq<Option<Error>>, b: seq<Option<Error>>)
    ensures NonNil(a + b) == NonNil(a) + NonNil(b)
    decreases |a|
  {
    if a == [] {
      assert a + b == b;
    } else {
      var ab := a + b;
      assert ab[0] == a[0];
      assert ab[1..] == a[1..] + b;
      NonNilAppend(a[1..], b);
      var head := if a[0].Some? then [a[0].value] else [];
      assert NonNil(ab) == head + NonNil(ab[1..]);
      assert NonNil(a) == head + NonNil(a[1..]);
    }
  }

  /** Nothing is kept exactly when every entry is nil (in particular, for an empty slice). */
  lemma {:induction false} NonNilEmpty(errs: seq<Option<Error>>)
    ensures NonNil(errs) == [] <==> forall i :: 0 <= i < |errs| ==> errs[i].None?
    decreases |errs|
  {
    if errs != [] {
      NonNilEmpty(errs[1..]);
      assert forall i :: 1 <= i < |errs| ==> errs[i] == errs[1..][i - 1];
    }
  }

  /** Every non-nil entry is kept: an entry's error appears in the result. */
  lemma {:induction false} NonNilKeeps(errs: seq<Option<Error>>, i: nat)
    requires i < |errs| && errs[i].Some?
    ensures errs[i].value in NonNil(errs)
    decreases |errs|
  {
    if i > 0 {
      NonNilKeeps(errs[1..], i - 1);
    }
  }

  /**
   * `flatten`: compacts the non-nil errors to the front of the caller's array
   * with a write cursor, leaves the slots from the cursor on as they were,
   * then returns nil, the single error, or their join.
   */
  method Flatten(errs: array<Option<Error>>) returns (r: Option<Error>)
    modifies errs
    ensures var kept := NonNil(old(errs[..]));
      && (forall k :: 0 <= k < |kept| ==> errs[k] == Some(kept[k]))
      && (forall k :: |kept| <= k < errs.Length ==> errs[k] == old(errs[k]))
      && r == Collapse(kept)
  {
    ghost var original := errs[..];
    var next := 0;
    for i := 0 to errs.Length
      invariant next == |NonNil(original[..i])| <= i
      invariant forall k :: 0 <= k < next ==> errs[k] == Some(NonNil(original[..i])[k])
      invariant forall k :: next <= k < errs.Length ==> errs[k] == original[k]
    {
      var err := errs[i];
      assert original[..i + 1] == original[..i] + [original[i]];
      NonNilAppend(original[..i], [original[i]]);
      if err.Some? {
        errs[next] := err;
        next := next + 1;
      }
    }
    assert original[..errs.Length] == original;
    var kept := errs[..next];
    r := match |kept|
      case 0 => None
      case 1 => kept[0]
      case _ => Some(Join(NonNil(kept)));
    assert kept == seq(next, k requires 0 <= k < next => Some(NonNil(original)[k]));
    NonNilOfSomes(NonNil(original));
  }

  /** Unwrapping a list of present errors gives the list back. */
  lemma {:induction false} NonNilOfSomes(errs: seq<Error>)
    ensures NonNil(seq(|errs|, k requires 0 <= k < |errs| => Some(errs[k]))) == errs
    decreases |errs|
  {
    if errs != [] {
      var wrapped := seq(|errs|, k requires 0 <= k < |errs| => Some(errs[k]));
      assert wrapped[1..] == seq(|errs[1..]|, k requires 0 <= k < |errs[1..]| => Some(errs[1..][k]));
      NonNilOfSomes(errs[1..]);
      assert errs == [errs[0]] + errs[1..];
    }
  }
}
