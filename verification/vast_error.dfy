/** `VastError`: a VAST error code with the message the VAST 3.0 error-code table gives it,
    and the text its stack trace is built from. */
module VastErrors {
  import opened Js

  /** The error codes the engine knows, with their table messages. */
  const Messages: map<int, string> := map[
    100 := "XML parsing error.",
    101 := "VAST schema validation error.",
    102 := "VAST version of response not supported.",
    201 := "Video player expecting different linearity.",
    202 := "Video player expecting different linearity.",
    302 := "Wrapper limit reached, as defined by the video player. Too many Wrapper responses have been received with no InLine response.",
    303 := "No Ads VAST response after one or more Wrappers.",
    403 := "Couldn’t find MediaFile that is supported by this video player, based on the attributes of the MediaFile element.",
    405 := "Problem displaying MediaFile. Video player found a MediaFile with supported type but couldn’t display it."
  ]

  /** A constructed `VastError`: `message` is `None` where the source leaves it `undefined`;
      `stackText` is the text handed to the `Error` whose stack is kept. */
  datatype ErrorObject = ErrorObject(code: int, message: Option<string>, stackText: string)

  /** `errors[code]` */
  function Message(code: int): (r: Option<string>)
    ensures r.Some? <==> code in {100, 101, 102, 201, 202, 302, 303, 403, 405}
    ensures r.Some? ==> |r.value| > 0 && r.value[|r.value| - 1] == '.'
  {
    if code in Messages then Some(Messages[code]) else None
  }

  /** `new VastError(code, info)`: `info` is `None` when the caller passes nothing (the
      default `false`). The stack text is `info || message`; an `undefined` message makes
      an `Error` with empty text. */
  function Make(code: int, info: Option<string>): (e: ErrorObject)
    ensures e.code == code
    ensures e.message == Message(code)
    ensures info.Some? && info.value != "" ==> e.stackText == info.value
    ensures (info.None? || info.value == "") && code in Messages ==> e.stackText == Messages[code]
    ensures (info.None? || info.value == "") && code !in Messages ==> e.stackText == ""
  {
    var message := Message(code);
    var text := if info.Some? && info.value != "" then info.value
      else if message.Some? then message.value else "";
    ErrorObject(code, message, text)
  }

  /** The object a thrown `VastError` stands for. */
  function OfThrown(t: Thrown): (e: ErrorObject)
    requires t.VastError?
    ensures e.code == t.code && e.message == Message(t.code)
  {
    Make(t.code, t.info)
  }

  /** The two linearity codes share one message, and every other pair of codes in the
      table has distinct messages. */
  lemma {:induction false} MessagesDistinct(a: int, b: int)
    requires Message(a).Some? && Message(b).Some? && a != b
    ensures Message(a) == Message(b) <==> {a, b} == {201, 202}
  {
    assert a in Messages && b in Messages;
  }
}
