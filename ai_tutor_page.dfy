/** The AI tutor chat: the user asks, optionally with an attached document, and
    the tutor's answer (or an apology with the error) is appended. */
module AITutorPage {
  import opened Wrappers
  import opened Text

  datatype Speaker = User | Tutor
  datatype Message = Message(role: Speaker, content: string)
  datatype FileRef = FileRef(name: string)

  /** What is handed to the tutor generator: the trimmed question and the document text. */
  datatype TutorRequest = TutorRequest(question: string, context: Option<string>)

  const ErrorPrefix: string := "Sorry, I encountered an error: "

  /** The user's message: the trimmed input, or a note naming the file when the input is blank.
      It is never empty. */
  function UserMessageText(input: string, file: Option<FileRef>): (t: string)
    requires !AllWhitespace(input) || file.Some?
    ensures Trim(input) != "" ==> t == Trim(input)
    ensures Trim(input) == "" ==> t == "Uploaded: " + file.value.name
    ensures t != ""
  {
    TrimEmptyIff(input);
    if Trim(input) != "" then Trim(input) else "Uploaded: " + file.value.name
  }

  /** The tutor's message: its answer, or the apology carrying the error message. */
  function ReplyText(ai: Result<string>): (t: string)
    ensures ai.Ok? ==> t == ai.value
    ensures ai.Err? ==> |ErrorPrefix| <= |t| && t[..|ErrorPrefix|] == ErrorPrefix && t[|ErrorPrefix|..] == ai.message
  {
    if ai.Ok? then ai.value else ErrorPrefix + ai.message
  }

  class TutorChat {
    var messages: seq<Message>
    var input: string
    var loading: bool
    var file: Option<FileRef>

    constructor ()
      ensures messages == [] && input == "" && !loading && file.None?
    {
      messages, input, loading, file := [], "", false, None;
    }

    /** onDrop: the first dropped file becomes the attachment. */
    method AttachFile(accepted: seq<FileRef>)
      modifies this
      ensures file == if accepted != [] then Some(accepted[0]) else old(file)
      ensures messages == old(messages) && input == old(input) && loading == old(loading)
    {
      if accepted != [] {
        file := Some(accepted[0]);
      }
    }

    /** handleSendMessage. `read` is the outcome of reading the attached file and `ai` the
        tutor generator's answer or error. Returns what was sent to the generator. */
    method SendMessage(read: Result<string>, ai: Result<string>) returns (request: Option<TutorRequest>)
      modifies this
      ensures AllWhitespace(old(input)) && old(file).None? ==>
                request.None? && messages == old(messages) && input == old(input)
                && loading == old(loading) && file == old(file)
      ensures !(AllWhitespace(old(input)) && old(file).None?) ==>
                input == "" && !loading
                && |old(messages)| < |messages| && messages[..|old(messages)|] == old(messages)
                && messages[|old(messages)|] == Message(User, UserMessageText(old(input), old(file)))
      ensures !(AllWhitespace(old(input)) && old(file).None?) && old(file).Some? && read.Err? ==>
                request.None? && |messages| == |old(messages)| + 1 && file == old(file)
      ensures !(AllWhitespace(old(input)) && old(file).None?) && (old(file).None? || read.Ok?) ==>
                request == Some(TutorRequest(Trim(old(input)), if old(file).Some? then Some(read.value) else None))
                && |messages| == |old(messages)| + 2
                && messages[|old(messages)| + 1] == Message(Tutor, ReplyText(ai))
                && file.None?
    {
      TrimEmptyIff(input);
      if Trim(input) == "" && file.None? {
        return None;
      }
      var question := Trim(input);
      messages := messages + [Message(User, UserMessageText(input, file))];
      input := "";
      loading := true;
      var context: Option<string> := None;
      if file.Some? {
        if read.Err? {
          loading := false;
          return None;
        }
        context := Some(read.value);
      }
      request := Some(TutorRequest(question, context));
      messages := messages + [Message(Tutor, ReplyText(ai))];
      loading := false;
      file := None;
    }
  }
}
