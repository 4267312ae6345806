/** Option, the failures the two readers can meet, and the error kinds
    that the lookup loader and the flow-log parser report. */
module Outcomes {

  datatype Option<+T> = None | Some(value: T)

  /** A failure raised while reading a file that was opened.  A decoding
      failure is a ValueError in Python; OtherFailure is any exception that
      is not a ValueError (an OSError, or a csv.Error raised while the
      reader parses a row). */
  datatype Failure =
    | DecodeFailure(message: string)
    | OtherFailure(message: string)

  /** The error kinds the core reports.  The message wording is not modelled;
      each kind carries what the message is built from. */
  datatype Error =
    /** The input file does not exist. */
    | NotFound
    /** The lookup header lacks these required column names. */
    | MissingColumns(names: set<string>)
    /** The lookup file raised some other ValueError while being read. */
    | InvalidValue(cause: string)
    /** Any other exception, wrapped with its message. */
    | Unexpected(cause: string)

  datatype Result<+T> = Ok(value: T) | Err(error: Error)

  /** f applied to every element of s, or None as soon as one application
      gives None. */
  function MapAll<A, B>(s: seq<A>, f: A -> Option<B>): Option<seq<B>>
  {
    if s == [] then Some([])
    else
      match MapAll(s[..|s| - 1], f)
      case None => None
      case Some(init) =>
        match f(s[|s| - 1])
        case None => None
        case Some(b) => Some(init + [b])
  }

  /** MapAll succeeds exactly when f succeeds on every element, and then
      yields f's values in order. */
  lemma {:induction false} MapAllSpec<A, B>(s: seq<A>, f: A -> Option<B>)
    ensures MapAll(s, f).Some? <==> forall i :: 0 <= i < |s| ==> f(s[i]).Some?
    ensures MapAll(s, f).Some? ==>
              |MapAll(s, f).value| == |s|
              && forall i :: 0 <= i < |s| ==> MapAll(s, f).value[i] == f(s[i]).value
  {
    if s != [] {
      var init := s[..|s| - 1];
      MapAllSpec(init, f);
      assert forall i :: 0 <= i < |init| ==> s[i] == init[i];
    }
  }

  /** Extending the input by one element whose application succeeds extends
      a successful MapAll by that element's value. */
  lemma MapAllStep<A, B>(s: seq<A>, f: A -> Option<B>, i: nat)
    requires i < |s| && MapAll(s[..i], f).Some? && f(s[i]).Some?
    ensures MapAll(s[..i + 1], f) == Some(MapAll(s[..i], f).value + [f(s[i]).value])
  {
    assert s[..i + 1][..i] == s[..i];
  }

  /** MapAll over two elements on which f succeeds. */
  lemma MapAllTwo<A, B>(a0: A, a1: A, f: A -> Option<B>, b0: B, b1: B)
    requires f(a0) == Some(b0) && f(a1) == Some(b1)
    ensures MapAll([a0, a1], f) == Some([b0, b1])
  {
    var none: seq<A> := [];
    assert MapAll(none, f) == Some([]);
    assert [a0][..0] == none;
    assert [] + [b0] == [b0];
    assert MapAll([a0], f) == Some([b0]);
    assert [a0, a1][..1] == [a0];
    assert [b0] + [b1] == [b0, b1];
  }
}
