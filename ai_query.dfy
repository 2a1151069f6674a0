/** The submit rule of the AI panel (`handleAIQuery`). The solver call itself is outside
    the model: `Submit` yields the request it would send, and `Resolve` receives its
    reply (`None` when the call or the parsing of its answer threw). */
module AIQuery {
  import opened Wrappers
  import opened Types

  const DefaultPrompt: string := "Solve the problem in this image."

  /** What the panel shows when the solver fails. */
  const Fallback: AIResponse :=
    AIResponse("Error", "Could not connect to AI Lab. Please check your connection.", None)

  /** The arguments of the solver call: the prompt and the optional image data. */
  datatype Request = Request(prompt: string, image: Option<string>)

  /** JavaScript truthiness of an optional string: present and not empty. */
  predicate Truthy(image: Option<string>) {
    image.Some? && image.value != ""
  }

  /** No request without text or image; otherwise the typed text, or the default prompt
      when only an image is present, and the image only when it is truthy. */
  function SubmitRequest(input: string, image: Option<string>): (r: Option<Request>)
    ensures r.None? <==> input == "" && !Truthy(image)
    ensures r.Some? ==> r.value.prompt != ""
    ensures r.Some? && input != "" ==> r.value.prompt == input
    ensures r.Some? && input == "" ==> r.value.prompt == DefaultPrompt && r.value.image == image
    ensures r.Some? ==> (r.value.image.Some? <==> Truthy(image)) && (Truthy(image) ==> r.value.image == image)
  {
    if input == "" && !Truthy(image) then None
    else Some(Request(if input != "" then input else DefaultPrompt, if Truthy(image) then image else None))
  }

  /** The result shown once the call settles: the reply, or the fixed fallback. */
  function Settle(reply: Option<AIResponse>): (r: AIResponse)
    ensures reply.Some? ==> r == reply.value
    ensures reply.None? ==> r == Fallback && r.answer == "Error" && r.steps.None?
  {
    match reply
    case Some(res) => res
    case None => Fallback
  }

  class AIPanel {
    var input: string
    var image: Option<string>
    var loading: bool
    var result: Option<AIResponse>

    constructor ()
      ensures input == "" && image == None && !loading && result == None
    {
      input := "";
      image := None;
      loading := false;
      result := None;
    }

    /** The part of `handleAIQuery` before the await: nothing happens without text or
        image; otherwise the panel starts loading, drops the old result and returns the
        request to send. Nothing refuses a second submission while one is loading. */
    method Submit() returns (request: Option<Request>)
      modifies this
      ensures request == SubmitRequest(old(input), old(image))
      ensures request.None? ==> loading == old(loading) && result == old(result)
      ensures request.Some? ==> loading && result == None
      ensures input == old(input) && image == old(image)
    {
      request := SubmitRequest(input, image);
      if request.Some? {
        loading := true;
        result := None;
      }
    }

    /** The part after the await: the reply or the fallback is shown, and loading ends
        whichever way the call went. */
    method Resolve(reply: Option<AIResponse>)
      modifies this
      ensures result == Some(Settle(reply)) && !loading
      ensures reply.None? ==> result == Some(Fallback)
      ensures input == old(input) && image == old(image)
    {
      match reply {
        case Some(res) =>
          result := Some(res);
        case None =>
          result := Some(Fallback);
      }
      loading := false;
    }
  }
}
