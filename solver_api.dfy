/** The request dispatcher of the solver API (`process_request` in main.py):
    echo the `name` list, else answer a `question` from the first CSV inside
    an uploaded `.zip`, else forward the question to the AI proxy's
    chat-completion endpoint. The zip/CSV libraries and the HTTP call are
    collaborators whose results are given as inputs; Python exceptions
    become `Err` values carrying the HTTP status and `detail`. */
module SolverApi {
  import opened Wrappers
  import opened Text

  // ---------------------------------------------------------------------
  // Constants
  // ---------------------------------------------------------------------

  const ProxyUrl: string := "https://aiproxy.sanand.workers.dev/openai/v1/chat/completions"
  const ModelId: string := "gpt-4o-mini"
  const SystemPrompt: string :=
    "You are an expert AI assistant designed to solve graded assignment questions from the IIT Madras Data Science online degree program. Your task is to accurately answer questions based on the provided text or data. If a CSV file is given, analyze the data within it to find the answer. If no CSV file is provided, use your general knowledge and reasoning abilities to answer the question. Give only the answer to directly submit it."

  const ZipSuffix: string := ".zip"
  const CsvSuffix: string := ".csv"
  const AnswerColumn: string := "answer"

  const NameRequiredDetail: string := "At least one 'name' parameter is required"
  const NoCsvDetail: string := "No CSV file found in ZIP."
  /** `str()` of the `HTTPException(400, NoCsvDetail)`: current Starlette releases render
      an HTTP exception as "<status>: <detail>". */
  const NoCsvExceptionText: string := "400: " + NoCsvDetail
  const ZipErrorPrefix: string := "Error processing ZIP file: "
  const TokenNotSetDetail: string := "AIPROXY_TOKEN is not set."
  const InvalidResponseDetail: string := "Invalid response from AI Proxy API."
  const ProxyErrorPrefix: string := "AI Proxy API error: "
  const InvalidRequestDetail: string :=
    "Invalid request. Provide either 'name' parameters or a 'question' (optionally with a 'file')."

  // ---------------------------------------------------------------------
  // Data model
  // ---------------------------------------------------------------------

  /** What the endpoint answers. */
  datatype Outcome =
    | Names(names: seq<string>)          // {"names": [...]}
    | Answer(answer: string)             // {"answer": "..."}
    | Err(code: int, detail: string)     // HTTPException(status_code=code, detail=detail)
    | Unhandled                          // an exception no handler catches: the framework's bare 500

  /** `str(df["answer"].iloc[0])`, or the message of the error raised when
      the column has no rows. */
  datatype AnswerCell = Value(text: string) | NoRows(msg: string)

  /** What `pd.read_csv` makes of an opened archive member: a failure
      (including a failure to open or decompress the member), or a table
      with its column labels and the first cell of the `answer` column. */
  datatype CsvRead =
    | CsvFail(msg: string)
    | Table(columns: seq<string>, firstAnswer: AnswerCell)

  /** What `zipfile.ZipFile` makes of the uploaded bytes: a failure, or an
      archive with its `namelist()` in listing order and, per member name,
      what reading that member as CSV yields. */
  datatype ArchiveRead =
    | Unreadable(msg: string)
    | Archive(members: seq<string>, open: string -> CsvRead)

  /** The uploaded file: its filename and what its bytes are as a zip archive
      (consulted only when the filename ends in ".zip"). */
  datatype Upload = Upload(filename: string, contents: ArchiveRead)

  datatype Message = Message(role: string, content: string)

  /** The POST sent to the AI proxy. */
  datatype ChatRequest = ChatRequest(
    url: string,
    headers: seq<(string, string)>,
    model: string,
    messages: seq<Message>)

  /** One element of `choices`; `content` is `None` when the element has no
      `message.content` string. */
  datatype Choice = Choice(content: Option<string>)

  /** What the completion call yields: a `requests.RequestException`
      (a connection failure or a body that is not JSON), or the decoded JSON
      with its `choices` list (`None` when the key is absent or null). */
  datatype Completion =
    | Transport(msg: string)
    | Reply(choices: Option<seq<Choice>>)

  /** What one step of the zip shortcut produces. */
  datatype ZipStep =
    | Found(answer: string)      // the first CSV has an `answer` column
    | Failed(reason: string)     // any exception inside the `try`; its `str()`
    | NoAnswerColumn             // the first CSV parsed but has no `answer` column

  // ---------------------------------------------------------------------
  // Operations
  // ---------------------------------------------------------------------

  /** `[f for f in namelist if f.endswith(".csv")]`: the CSV members, in
      listing order. */
  function CsvCandidates(members: seq<string>): (r: seq<string>)
    ensures |r| <= |members|
    ensures forall x :: x in r <==> x in members && EndsWith(x, CsvSuffix)
  {
    if members == [] then []
    else
      var rest := CsvCandidates(members[1..]);
      if EndsWith(members[0], CsvSuffix) then [members[0]] + rest else rest
  }

  /** What reading the first CSV candidate yields, or `None` when the archive
      is unreadable or has no CSV member. */
  function FirstCsv(archive: ArchiveRead): (r: Option<CsvRead>)
    ensures r.Some? <==> archive.Archive? && exists m :: m in archive.members && EndsWith(m, CsvSuffix)
  {
    if archive.Archive? && CsvCandidates(archive.members) != [] then
      var first := CsvCandidates(archive.members)[0];
      assert first in CsvCandidates(archive.members);
      Some(archive.open(first))
    else
      None
  }

  /** The body of the `try` around the archive, with its `except Exception`:
      the raised 400 for a zip without CSV members is caught like any other
      exception and comes back as a failure reason. */
  function ZipShortcut(archive: ArchiveRead): (r: ZipStep)
    ensures r.Failed? <==>
      FirstCsv(archive).None?
      || var first := FirstCsv(archive).value;
         first.CsvFail? || (first.Table? && AnswerColumn in first.columns && first.firstAnswer.NoRows?)
    ensures r.Found? <==>
      FirstCsv(archive).Some?
      && var first := FirstCsv(archive).value;
         first.Table? && AnswerColumn in first.columns && first.firstAnswer.Value?
    ensures r.Found? ==> r.answer == FirstCsv(archive).value.firstAnswer.text
    ensures r.NoAnswerColumn? <==>
      FirstCsv(archive).Some?
      && var first := FirstCsv(archive).value;
         first.Table? && AnswerColumn !in first.columns
  {
    match archive
    case Unreadable(msg) => Failed(msg)
    case Archive(members, open) =>
      var csvs := CsvCandidates(members);
      if |csvs| == 0 then Failed(NoCsvExceptionText)
      else
        match open(csvs[0])
        case CsvFail(msg) => Failed(msg)
        case Table(columns, cell) =>
          if AnswerColumn in columns then
            match cell
            case Value(text) => Found(text)
            case NoRows(msg) => Failed(msg)
          else NoAnswerColumn
  }

  /** The request body and headers built for the AI proxy. */
  function BuildChatRequest(question: string, token: string): (r: ChatRequest)
    ensures r.url == ProxyUrl && r.model == ModelId
    ensures r.headers == [("Content-Type", "application/json"), ("Authorization", "Bearer " + token)]
    ensures r.messages == [Message("system", SystemPrompt), Message("user", question)]
  {
    ChatRequest(
      ProxyUrl,
      [("Content-Type", "application/json"), ("Authorization", "Bearer " + token)],
      ModelId,
      [Message("system", SystemPrompt), Message("user", question)])
  }

  /** The completion fallback: the second `try`, whose handler only catches
      `requests.RequestException`, so the HTTP exceptions raised inside it
      pass through unchanged. */
  function CompletionStep(question: string, token: Option<string>,
                          complete: ChatRequest -> Completion): (r: Outcome)
    ensures r.Err? ==> r.code == 500
    ensures !r.Names?
    ensures r == Unhandled <==>
      Truthy(token)
      && var reply := complete(BuildChatRequest(question, token.value));
         reply.Reply? && reply.choices.Some? && reply.choices.value != []
         && reply.choices.value[0].content.None?
    ensures r.Answer? <==>
      Truthy(token)
      && var reply := complete(BuildChatRequest(question, token.value));
         reply.Reply? && reply.choices.Some? && reply.choices.value != []
         && reply.choices.value[0].content.Some?
  {
    if !Truthy(token) then Err(500, TokenNotSetDetail)
    else
      match complete(BuildChatRequest(question, token.value))
      case Transport(msg) => Err(500, ProxyErrorPrefix + msg)
      case Reply(choices) =>
        if choices.None? || |choices.value| == 0 then Err(500, InvalidResponseDetail)
        else
          match choices.value[0].content
          case None => Unhandled
          case Some(text) => Answer(Strip(text))
  }

  /** True when the dispatcher tries the zip shortcut. */
  predicate TriesZip(file: Option<Upload>) {
    file.Some? && EndsWith(file.value.filename, ZipSuffix)
  }

  /** `process_request`. `token` is the value of AIPROXY_TOKEN read from the
      environment; `complete` stands for the POST to the AI proxy. */
  function Dispatch(name: Option<seq<string>>, question: Option<string>,
                    file: Option<Upload>, token: Option<string>,
                    complete: ChatRequest -> Completion): (r: Outcome)
    ensures r.Names? <==> Truthy(name)
    ensures r.Err? ==> r.code == 400 || r.code == 500
    ensures r != Err(400, NameRequiredDetail)
    ensures (r.Err? && r.code == 400) <==> !Truthy(name) && !Truthy(question)
  {
    if Truthy(name) then
      // The inner test of the source can never hold inside this branch.
      if !Truthy(name) then Err(400, NameRequiredDetail) else Names(name.value)
    else if !Truthy(question) then
      Err(400, InvalidRequestDetail)
    else if TriesZip(file) then
      match ZipShortcut(file.value.contents)
      case Found(answer) => Answer(answer)
      case Failed(reason) => Err(500, ZipErrorPrefix + reason)
      case NoAnswerColumn => CompletionStep(question.value, token, complete)
    else
      CompletionStep(question.value, token, complete)
  }
}
