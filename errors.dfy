/**
 * The error taxonomy of the tool (src/error.rs): the `Error` enum, the two
 * `From` conversions that the `?` operator uses to wrap foreign errors, and
 * the `Display` rendering that `main` prints after `*** `.
 */
module Errors {
  import opened Wrappers

  /**
   * `std::num::ParseIntError`. Its rendering belongs to the standard library;
   * the model keeps only that rendering, as uninterpreted text.
   */
  datatype IntError = IntError(text: string)

  /**
   * `url::ParseError`. Its rendering belongs to the url crate; the model keeps
   * only that rendering, as uninterpreted text.
   */
  datatype UrlError = UrlError(text: string)

  /** The tool's own error type. */
  datatype Error =
    | NoSuchCommand(msg: string)
    | InvalidArgument(msg: string)
    | MissingArgument(msg: string)
    | ParseIntError(intError: IntError)
    | ParseUrlError(urlError: UrlError)

  const NoSuchCommandPrefix: string := "No such command: "
  const InvalidArgumentPrefix: string := "Invalid argument: "
  const MissingArgumentPrefix: string := "Missing argument: "

  /** The variants that carry a message of the tool's own. */
  predicate CarriesMessage(e: Error)
  {
    e.NoSuchCommand? || e.InvalidArgument? || e.MissingArgument?
  }

  /** `impl From<ParseIntError> for Error`. */
  function FromIntError(e: IntError): (r: Error)
    ensures r.ParseIntError? && r.intError == e
    ensures Message(r) == e.text
  {
    ParseIntError(e)
  }

  /** `impl From<url::ParseError> for Error`. */
  function FromUrlError(e: UrlError): (r: Error)
    ensures r.ParseUrlError? && r.urlError == e
    ensures Message(r) == e.text
  {
    ParseUrlError(e)
  }

  /** `impl Display for Error`: one exhaustive match, so every variant renders. */
  function Message(e: Error): (s: string)
    ensures CarriesMessage(e) ==> |s| == |e.msg| + (if e.NoSuchCommand? then 17 else 18)
    ensures CarriesMessage(e) ==> s[|s| - |e.msg|..] == e.msg
  {
    match e
    case NoSuchCommand(msg) => NoSuchCommandPrefix + msg
    case InvalidArgument(msg) => InvalidArgumentPrefix + msg
    case MissingArgument(msg) => MissingArgumentPrefix + msg
    case ParseIntError(err) => err.text
    case ParseUrlError(err) => err.text
  }

  /** The text after `prefix` in `s`, when `s` starts with `prefix`. */
  function After(prefix: string, s: string): (r: Option<string>)
    ensures r.Some? <==> prefix <= s
    ensures r.Some? ==> s == prefix + r.value
  {
    if prefix <= s then Some(s[|prefix|..]) else None
  }

  /**
   * Reads a rendered message back as the error it came from, recognising the
   * three prefixes of the tool's own messages. The partner of `Message`.
   */
  function Classify(s: string): (r: Option<Error>)
    ensures r.Some? ==> CarriesMessage(r.value) && Message(r.value) == s
  {
    if After(NoSuchCommandPrefix, s).Some? then Some(NoSuchCommand(After(NoSuchCommandPrefix, s).value))
    else if After(InvalidArgumentPrefix, s).Some? then Some(InvalidArgument(After(InvalidArgumentPrefix, s).value))
    else if After(MissingArgumentPrefix, s).Some? then Some(MissingArgument(After(MissingArgumentPrefix, s).value))
    else None
  }

  /** Each of the tool's own messages is its fixed prefix followed by the payload. */
  lemma MessagePrefixes(msg: string)
    ensures Message(NoSuchCommand(msg)) == "No such command: " + msg
    ensures Message(InvalidArgument(msg)) == "Invalid argument: " + msg
    ensures Message(MissingArgument(msg)) == "Missing argument: " + msg
  {
  }

  /** The wrapped foreign errors render as their own text, with nothing added. */
  lemma WrappedMessagesUnchanged(ie: IntError, ue: UrlError)
    ensures Message(ParseIntError(ie)) == ie.text
    ensures Message(ParseUrlError(ue)) == ue.text
  {
  }

  /** No one of the three prefixes starts another one. */
  lemma PrefixesDistinct(a: string, b: string)
    ensures !(NoSuchCommandPrefix + a <= InvalidArgumentPrefix + b)
    ensures !(InvalidArgumentPrefix + a <= NoSuchCommandPrefix + b)
    ensures !(NoSuchCommandPrefix + a <= MissingArgumentPrefix + b)
    ensures !(MissingArgumentPrefix + a <= NoSuchCommandPrefix + b)
    ensures !(InvalidArgumentPrefix + a <= MissingArgumentPrefix + b)
    ensures !(MissingArgumentPrefix + a <= InvalidArgumentPrefix + b)
  {
    assert (NoSuchCommandPrefix + a)[0] == 'N';
    assert (InvalidArgumentPrefix + b)[0] == 'I';
    assert (MissingArgumentPrefix + b)[0] == 'M';
    assert (InvalidArgumentPrefix + a)[0] == 'I';
    assert (MissingArgumentPrefix + a)[0] == 'M';
    assert (NoSuchCommandPrefix + b)[0] == 'N';
  }

  /** Round trip: a message of the tool's own reads back as exactly its error. */
  lemma ClassifyMessage(e: Error)
    requires CarriesMessage(e)
    ensures Classify(Message(e)) == Some(e)
  {
    var s := Message(e);
    PrefixesDistinct("", e.msg);
    assert NoSuchCommandPrefix + "" == NoSuchCommandPrefix;
    assert InvalidArgumentPrefix + "" == InvalidArgumentPrefix;
    match e
    case NoSuchCommand(msg) =>
      assert NoSuchCommandPrefix <= s;
      assert s[|NoSuchCommandPrefix|..] == msg;
    case InvalidArgument(msg) =>
      assert InvalidArgumentPrefix <= s;
      assert s[|InvalidArgumentPrefix|..] == msg;
    case MissingArgument(msg) =>
      assert MissingArgumentPrefix <= s;
      assert s[|MissingArgumentPrefix|..] == msg;
  }

  /**
   * The three string-carrying variants are distinguishable by their message:
   * equal messages mean the same variant with the same payload.
   */
  lemma MessageInjective(a: Error, b: Error)
    requires CarriesMessage(a) && CarriesMessage(b)
    requires Message(a) == Message(b)
    ensures a == b
  {
    ClassifyMessage(a);
    ClassifyMessage(b);
  }
}
