/** ExceptionHandler: the exception filter that turns whatever escaped a
    controller action into a status code and a `{content: [messages]}`
    body.  An exception is a finite chain through `InnerException`. */
module ExceptionHandler {
  import opened Wrappers
  import opened HttpStatus

  /** The exception's runtime type, as far as the filter distinguishes it. */
  datatype Kind = NotExistException | RequiredException | OtherException

  datatype Exception = Exception(kind: Kind, message: Option<string>, inner: Option<Exception>)


  /** GetHttpStatusCode. */
  function StatusCode(e: Exception): (r: int)
    ensures r in {NotFound, BadRequest, InternalServerError}
    ensures r == NotFound <==> e.kind == NotExistException
    ensures r == BadRequest <==> e.kind == RequiredException
  {
    if e.kind == NotExistException then NotFound
    else if e.kind == RequiredException then BadRequest
    else InternalServerError
  }

  /** The exceptions of the chain, outermost first. */
  function Chain(e: Exception): (r: seq<Exception>)
    decreases e
    ensures |r| >= 1 && r[0] == e
    ensures forall i | 0 <= i < |r| - 1 :: r[i].inner == Some(r[i + 1])
    ensures r[|r| - 1].inner == None
  {
    match e.inner
    case None => [e]
    case Some(next) => [e] + Chain(next)
  }

  /** `!string.IsNullOrEmpty(x.Message)`. */
  predicate HasMessage(x: Exception) {
    x.message.Some? && x.message.value != []
  }

  /** The messages of `xs` that are neither null nor empty, in order. */
  function KeepMessages(xs: seq<Exception>): (r: seq<string>)
    ensures |r| <= |xs|
    ensures forall i | 0 <= i < |r| :: r[i] != []
  {
    if xs == [] then []
    else (if HasMessage(xs[0]) then [xs[0].message.value] else []) + KeepMessages(xs[1..])
  }

  /** What GetHttpResponse collects for `e`. */
  function Messages(e: Exception): seq<string> {
    KeepMessages(Chain(e))
  }

  /** GetHttpResponse's do-while walk.  The outermost exception is
      examined before the loop test, and each turn moves one link inward. */
  method CollectMessages(e: Exception) returns (messages: seq<string>)
    ensures messages == Messages(e)
    ensures |messages| <= |Chain(e)|
    ensures forall i | 0 <= i < |messages| :: messages[i] != []
  {
    messages := [];
    var current := e;
    while true
      invariant messages + Messages(current) == Messages(e)
      decreases current
    {
      if HasMessage(current) {
        messages := messages + [current.message.value];
      }
      if current.inner.None? {
        break;
      }
      current := current.inner.value;
    }
  }

  /** Filtering distributes over concatenation: the messages of an outer
      stretch of the chain all precede those of the stretch inside it. */
  lemma {:induction false} KeepMessagesAppend(xs: seq<Exception>, ys: seq<Exception>)
    ensures KeepMessages(xs + ys) == KeepMessages(xs) + KeepMessages(ys)
    decreases |xs|
  {
    if xs == [] {
      assert xs + ys == ys;
    } else {
      assert (xs + ys)[1..] == xs[1..] + ys;
      KeepMessagesAppend(xs[1..], ys);
    }
  }

  /** A string is collected exactly when some exception of the chain
      carries it as a non-empty message. */
  lemma {:induction false} KeepMessagesMembership(xs: seq<Exception>, m: string)
    ensures m in KeepMessages(xs) <==> exists i | 0 <= i < |xs| :: xs[i].message == Some(m) && m != []
    decreases |xs|
  {
    if xs != [] {
      KeepMessagesMembership(xs[1..], m);
      if m in KeepMessages(xs[1..]) {
        var i :| 0 <= i < |xs[1..]| && xs[1..][i].message == Some(m) && m != [];
        assert xs[i + 1].message == Some(m);
      }
      if exists i | 0 <= i < |xs| :: xs[i].message == Some(m) && m != [] {
        var i :| 0 <= i < |xs| && xs[i].message == Some(m) && m != [];
        if i > 0 {
          assert xs[1..][i - 1].message == Some(m);
        }
      }
    }
  }

  /** The outermost exception is always examined: its message, when it has
      one, comes first, followed by everything the inner chain yields. */
  lemma MessagesOutermostFirst(e: Exception)
    ensures HasMessage(e) ==> |Messages(e)| >= 1 && Messages(e)[0] == e.message.value
    ensures e.inner.Some? ==>
      Messages(e) == (if HasMessage(e) then [e.message.value] else []) + Messages(e.inner.value)
    ensures e.inner.None? ==> Messages(e) == (if HasMessage(e) then [e.message.value] else [])
  {
    if e.inner.Some? {
      assert Chain(e) == [e] + Chain(e.inner.value);
      KeepMessagesAppend([e], Chain(e.inner.value));
    }
  }

  /** The response lists exactly the non-empty messages found on the chain,
      and never more entries than the chain has links. */
  lemma MessagesCharacterisation(e: Exception, m: string)
    ensures m in Messages(e) <==> exists x | x in Chain(e) :: x.message == Some(m) && m != []
    ensures |Messages(e)| <= |Chain(e)|
  {
    var xs := Chain(e);
    KeepMessagesMembership(xs, m);
    if exists x | x in xs :: x.message == Some(m) && m != [] {
      var x :| x in xs && x.message == Some(m) && m != [];
      var i :| 0 <= i < |xs| && xs[i] == x;
    }
  }
}
