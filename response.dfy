/** The response envelope (response.go) and its builder. Each builder method
    overwrites one part of the receiver's response body and returns the
    receiver itself, so that calls can be chained. */
module Response {
  import opened Wrappers
  import opened Json

  const ResponseVersion := "1.0"
  const PlainTextType := "PlainText"
  const SimpleCardType := "Simple"

  datatype EchoOutputSpeech = EchoOutputSpeech(speechType: string, text: string)

  datatype EchoCard = EchoCard(cardType: string, title: string, content: string)

  datatype EchoReprompt = EchoReprompt(outputSpeech: EchoOutputSpeech)

  /** The body; `None` stands for a nil pointer, which the JSON form omits. */
  datatype EchoRespBody = EchoRespBody(
    outputSpeech: Option<EchoOutputSpeech>,
    card: Option<EchoCard>,
    reprompt: Option<EchoReprompt>,
    shouldEndSession: bool)

  function PlainText(text: string): EchoOutputSpeech
  {
    EchoOutputSpeech(PlainTextType, text)
  }

  // The four updates the builder methods make to a body.

  function SetOutputSpeech(b: EchoRespBody, text: string): EchoRespBody
  {
    b.(outputSpeech := Some(PlainText(text)))
  }

  function SetCard(b: EchoRespBody, title: string, content: string): EchoRespBody
  {
    b.(card := Some(EchoCard(SimpleCardType, title, content)))
  }

  function SetReprompt(b: EchoRespBody, text: string): EchoRespBody
  {
    b.(reprompt := Some(EchoReprompt(PlainText(text))))
  }

  function SetEndSession(b: EchoRespBody, flag: bool): EchoRespBody
  {
    b.(shouldEndSession := flag)
  }

  class EchoResponse {
    var version: string
    /** A nil map of the source is the empty map here. */
    var sessionAttributes: map<string, JsonValue>
    var response: EchoRespBody

    /** `NewResponse`: version 1.0, the session ends, and nothing is set. */
    constructor NewResponse()
      ensures version == ResponseVersion && sessionAttributes == map[]
      ensures response == EchoRespBody(None, None, None, true)
    {
      version := ResponseVersion;
      sessionAttributes := map[];
      response := EchoRespBody(None, None, None, true);
    }

    method OutputSpeech(text: string) returns (self: EchoResponse)
      modifies this
      ensures self == this
      ensures response == SetOutputSpeech(old(response), text)
      ensures version == old(version) && sessionAttributes == old(sessionAttributes)
    {
      response := response.(outputSpeech := Some(EchoOutputSpeech(PlainTextType, text)));
      return this;
    }

    method Card(title: string, content: string) returns (self: EchoResponse)
      modifies this
      ensures self == this
      ensures response == SetCard(old(response), title, content)
      ensures version == old(version) && sessionAttributes == old(sessionAttributes)
    {
      response := response.(card := Some(EchoCard(SimpleCardType, title, content)));
      return this;
    }

    method Reprompt(text: string) returns (self: EchoResponse)
      modifies this
      ensures self == this
      ensures response == SetReprompt(old(response), text)
      ensures version == old(version) && sessionAttributes == old(sessionAttributes)
    {
      response := response.(reprompt := Some(EchoReprompt(EchoOutputSpeech(PlainTextType, text))));
      return this;
    }

    method EndSession(flag: bool) returns (self: EchoResponse)
      modifies this
      ensures self == this
      ensures response == SetEndSession(old(response), flag)
      ensures version == old(version) && sessionAttributes == old(sessionAttributes)
    {
      response := response.(shouldEndSession := flag);
      return this;
    }
  }

  /** Each update sets its own part to the given value and leaves the other
      three parts of the body as they were. */
  lemma UpdatesTouchOnePart(b: EchoRespBody, text: string, title: string, content: string, flag: bool)
    ensures var u := SetOutputSpeech(b, text);
      u.outputSpeech == Some(EchoOutputSpeech("PlainText", text))
      && u.card == b.card && u.reprompt == b.reprompt && u.shouldEndSession == b.shouldEndSession
    ensures var u := SetCard(b, title, content);
      u.card == Some(EchoCard("Simple", title, content))
      && u.outputSpeech == b.outputSpeech && u.reprompt == b.reprompt && u.shouldEndSession == b.shouldEndSession
    ensures var u := SetReprompt(b, text);
      u.reprompt == Some(EchoReprompt(EchoOutputSpeech("PlainText", text)))
      && u.outputSpeech == b.outputSpeech && u.card == b.card && u.shouldEndSession == b.shouldEndSession
    ensures var u := SetEndSession(b, flag);
      u.shouldEndSession == flag
      && u.outputSpeech == b.outputSpeech && u.card == b.card && u.reprompt == b.reprompt
  {
  }

  /** The last call wins: applying an update twice is applying the second
      call once, and so repeating a call changes nothing. */
  lemma LastCallWins(b: EchoRespBody, t1: string, t2: string, c1: string, c2: string, f1: bool, f2: bool)
    ensures SetOutputSpeech(SetOutputSpeech(b, t1), t2) == SetOutputSpeech(b, t2)
    ensures SetCard(SetCard(b, t1, c1), t2, c2) == SetCard(b, t2, c2)
    ensures SetReprompt(SetReprompt(b, t1), t2) == SetReprompt(b, t2)
    ensures SetEndSession(SetEndSession(b, f1), f2) == SetEndSession(b, f2)
  {
  }

  /** Updates of different parts commute, so a chain of calls on different
      parts builds the same body in any order. */
  lemma UpdatesOfDifferentPartsCommute(b: EchoRespBody, text: string, title: string, content: string, flag: bool)
    ensures SetCard(SetOutputSpeech(b, text), title, content) == SetOutputSpeech(SetCard(b, title, content), text)
    ensures SetReprompt(SetOutputSpeech(b, text), title) == SetOutputSpeech(SetReprompt(b, title), text)
    ensures SetEndSession(SetOutputSpeech(b, text), flag) == SetOutputSpeech(SetEndSession(b, flag), text)
    ensures SetReprompt(SetCard(b, title, content), text) == SetCard(SetReprompt(b, text), title, content)
    ensures SetEndSession(SetCard(b, title, content), flag) == SetCard(SetEndSession(b, flag), title, content)
    ensures SetEndSession(SetReprompt(b, text), flag) == SetReprompt(SetEndSession(b, flag), text)
  {
  }

  /** A chain as a skill writes it: build, say something, show a card. The
      builder hands back the one response it started with. */
  method BuildGreeting(speech: string, title: string, content: string) returns (r: EchoResponse)
    ensures r.version == ResponseVersion && r.sessionAttributes == map[]
    ensures r.response == EchoRespBody(Some(PlainText(speech)), Some(EchoCard(SimpleCardType, title, content)), None, true)
  {
    r := new EchoResponse.NewResponse();
    var same := r.OutputSpeech(speech);
    same := same.Card(title, content);
  }
}
