/** What the dispatcher of main.py promises, stated over the model in
    module SolverApi: the fixed order of the three strategies, which inputs
    each branch consults, and how every failure maps to a status and detail. */
module SolverApiProperties {
  import opened Wrappers
  import opened Text
  import opened SolverApi

  // ---------------------------------------------------------------------
  // The CSV candidates of an archive
  // ---------------------------------------------------------------------

  /** Filtering keeps listing order: it distributes over concatenation. */
  lemma {:induction false} CsvCandidatesAppend(a: seq<string>, b: seq<string>)
    ensures CsvCandidates(a + b) == CsvCandidates(a) + CsvCandidates(b)
  {
    if a != [] {
      assert (a + b)[1..] == a[1..] + b;
      CsvCandidatesAppend(a[1..], b);
    } else {
      assert a + b == b;
    }
  }

  /** The name opened is the earliest listed member name ending in ".csv". */
  lemma {:induction false} FirstCandidateIsEarliest(members: seq<string>, i: nat)
    requires i < |members| && EndsWith(members[i], CsvSuffix)
    requires forall k :: 0 <= k < i ==> !EndsWith(members[k], CsvSuffix)
    ensures CsvCandidates(members) != [] && CsvCandidates(members)[0] == members[i]
  {
    if i > 0 {
      assert !EndsWith(members[0], CsvSuffix);
      assert forall k :: 0 <= k < i - 1 ==> members[1..][k] == members[k + 1];
      FirstCandidateIsEarliest(members[1..], i - 1);
    }
  }

  /** Only the first candidate is ever read: two archives with the same
      listing whose first CSV member reads the same give the same step. */
  lemma OnlyFirstCandidateRead(members: seq<string>, open: string -> CsvRead,
                               open': string -> CsvRead)
    requires CsvCandidates(members) != []
    requires open(CsvCandidates(members)[0]) == open'(CsvCandidates(members)[0])
    ensures ZipShortcut(Archive(members, open)) == ZipShortcut(Archive(members, open'))
  {
  }

  // ---------------------------------------------------------------------
  // Branch 1: names
  // ---------------------------------------------------------------------

  /** A non-empty `name` list is echoed whatever else the request carries. */
  lemma NamesEchoed(name: Option<seq<string>>, question: Option<string>,
                    file: Option<Upload>, token: Option<string>,
                    complete: ChatRequest -> Completion)
    requires Truthy(name)
    ensures Dispatch(name, question, file, token, complete) == Names(name.value)
  {
  }

  /** An empty `name` list is falsy: the request is handled as if `name`
      were absent, so `{"names": []}` is never answered. */
  lemma EmptyNamesFallThrough(question: Option<string>, file: Option<Upload>,
                              token: Option<string>, complete: ChatRequest -> Completion)
    ensures Dispatch(Some([]), question, file, token, complete)
         == Dispatch(None, question, file, token, complete)
    ensures !Dispatch(Some([]), question, file, token, complete).Names?
  {
  }

  // ---------------------------------------------------------------------
  // Branch 3: invalid request
  // ---------------------------------------------------------------------

  /** Without names and without a non-empty question the request is refused
      with the 400, and the file, token and completion are never consulted. */
  lemma InvalidRequestRefused(name: Option<seq<string>>, question: Option<string>,
                              file: Option<Upload>, token: Option<string>,
                              complete: ChatRequest -> Completion)
    requires !Truthy(name) && !Truthy(question)
    ensures Dispatch(name, question, file, token, complete) == Err(400, InvalidRequestDetail)
  {
  }

  // ---------------------------------------------------------------------
  // Branch 2a: the zip shortcut
  // ---------------------------------------------------------------------

  /** A file that is absent or not named "*.zip" (exactly, case-sensitively)
      is ignored: control goes straight to the completion path. */
  lemma NonZipGoesToCompletion(name: Option<seq<string>>, question: Option<string>,
                               file: Option<Upload>, token: Option<string>,
                               complete: ChatRequest -> Completion)
    requires !Truthy(name) && Truthy(question) && !TriesZip(file)
    ensures Dispatch(name, question, file, token, complete)
         == CompletionStep(question.value, token, complete)
  {
  }

  /** A zip without any ".csv" member ends in a 500: the 400 raised for it
      is caught by the broad handler and wrapped. */
  lemma ZipWithoutCsvIs500(name: Option<seq<string>>, question: Option<string>,
                           filename: string, members: seq<string>,
                           open: string -> CsvRead, token: Option<string>,
                           complete: ChatRequest -> Completion)
    requires !Truthy(name) && Truthy(question) && EndsWith(filename, ZipSuffix)
    requires forall m :: m in members ==> !EndsWith(m, CsvSuffix)
    ensures Dispatch(name, question, Some(Upload(filename, Archive(members, open))), token, complete)
         == Err(500, ZipErrorPrefix + NoCsvExceptionText)
  {
    assert CsvCandidates(members) == [] by {
      if CsvCandidates(members) != [] {
        assert CsvCandidates(members)[0] in CsvCandidates(members);
      }
    }
  }

  /** Every failure inside the zip shortcut (unreadable archive, no CSV,
      unreadable or unparsable CSV, an `answer` column without rows) is a
      500 prefixed "Error processing ZIP file: ", and the completion path is
      never taken: neither the token nor the completion service matters. */
  lemma ZipFailureIsTerminal(name: Option<seq<string>>, question: Option<string>,
                             file: Option<Upload>, token: Option<string>,
                             complete: ChatRequest -> Completion,
                             token': Option<string>, complete': ChatRequest -> Completion)
    requires !Truthy(name) && Truthy(question) && TriesZip(file)
    requires ZipShortcut(file.value.contents).Failed?
    ensures Dispatch(name, question, file, token, complete)
         == Err(500, ZipErrorPrefix + ZipShortcut(file.value.contents).reason)
    ensures Dispatch(name, question, file, token, complete)
         == Dispatch(name, question, file, token', complete')
  {
  }

  /** An archive `zipfile` cannot open is a 500 carrying the error's message. */
  lemma UnreadableZipIs500(name: Option<seq<string>>, question: Option<string>,
                           filename: string, msg: string, token: Option<string>,
                           complete: ChatRequest -> Completion)
    requires !Truthy(name) && Truthy(question) && EndsWith(filename, ZipSuffix)
    ensures Dispatch(name, question, Some(Upload(filename, Unreadable(msg))), token, complete)
         == Err(500, ZipErrorPrefix + msg)
  {
  }

  /** When the member under the earliest CSV name cannot be read or parsed, or has an
      `answer` column without rows, the result is a 500 carrying the error's
      message. */
  lemma FirstCsvFailureIs500(name: Option<seq<string>>, question: Option<string>,
                             filename: string, members: seq<string>, i: nat,
                             open: string -> CsvRead, msg: string,
                             token: Option<string>, complete: ChatRequest -> Completion)
    requires !Truthy(name) && Truthy(question) && EndsWith(filename, ZipSuffix)
    requires i < |members| && EndsWith(members[i], CsvSuffix)
    requires forall k :: 0 <= k < i ==> !EndsWith(members[k], CsvSuffix)
    requires open(members[i]) == CsvFail(msg)
          || (open(members[i]).Table? && open(members[i]).firstAnswer == NoRows(msg)
              && AnswerColumn in open(members[i]).columns)
    ensures Dispatch(name, question, Some(Upload(filename, Archive(members, open))), token, complete)
         == Err(500, ZipErrorPrefix + msg)
  {
    FirstCandidateIsEarliest(members, i);
  }

  /** When the member under the earliest CSV name has an `answer` column, its first value is
      the answer, with no completion call and no token needed. */
  lemma ZipAnswerFromFirstCsv(name: Option<seq<string>>, question: Option<string>,
                              filename: string, members: seq<string>, i: nat,
                              open: string -> CsvRead, columns: seq<string>,
                              text: string, token: Option<string>,
                              complete: ChatRequest -> Completion)
    requires !Truthy(name) && Truthy(question) && EndsWith(filename, ZipSuffix)
    requires i < |members| && EndsWith(members[i], CsvSuffix)
    requires forall k :: 0 <= k < i ==> !EndsWith(members[k], CsvSuffix)
    requires open(members[i]) == Table(columns, Value(text)) && AnswerColumn in columns
    ensures Dispatch(name, question, Some(Upload(filename, Archive(members, open))), token, complete)
         == Answer(text)
  {
    FirstCandidateIsEarliest(members, i);
  }

  /** When the member under the earliest CSV name parses but has no `answer` column, the
      shortcut yields nothing and the completion path runs, without error. */
  lemma NoAnswerColumnFallsThrough(name: Option<seq<string>>, question: Option<string>,
                                   filename: string, members: seq<string>, i: nat,
                                   open: string -> CsvRead, columns: seq<string>,
                                   cell: AnswerCell, token: Option<string>,
                                   complete: ChatRequest -> Completion)
    requires !Truthy(name) && Truthy(question) && EndsWith(filename, ZipSuffix)
    requires i < |members| && EndsWith(members[i], CsvSuffix)
    requires forall k :: 0 <= k < i ==> !EndsWith(members[k], CsvSuffix)
    requires open(members[i]) == Table(columns, cell) && AnswerColumn !in columns
    ensures Dispatch(name, question, Some(Upload(filename, Archive(members, open))), token, complete)
         == CompletionStep(question.value, token, complete)
  {
    FirstCandidateIsEarliest(members, i);
  }

  // ---------------------------------------------------------------------
  // Branch 2b: the completion fallback
  // ---------------------------------------------------------------------

  /** The question reaches the service verbatim: the request determines it. */
  lemma RequestDeterminesQuestion(question: string, token: string)
    ensures forall q' :: BuildChatRequest(q', token) == BuildChatRequest(question, token) ==> q' == question
  {
  }

  /** The completion service is consulted only through the one request built
      from the question and token. */
  lemma CompletionSeesOnlyTheRequest(question: string, token: Option<string>,
                                     complete: ChatRequest -> Completion,
                                     complete': ChatRequest -> Completion)
    requires Truthy(token)
    requires complete(BuildChatRequest(question, token.value))
          == complete'(BuildChatRequest(question, token.value))
    ensures CompletionStep(question, token, complete) == CompletionStep(question, token, complete')
  {
  }

  /** A missing or empty token is a 500 before any request is made. */
  lemma TokenMissingIs500(question: string, token: Option<string>,
                          complete: ChatRequest -> Completion)
    requires !Truthy(token)
    ensures CompletionStep(question, token, complete) == Err(500, TokenNotSetDetail)
  {
  }

  /** A transport failure is a 500 carrying its message. */
  lemma TransportFailureIs500(question: string, token: Option<string>,
                              complete: ChatRequest -> Completion, msg: string)
    requires Truthy(token)
    requires complete(BuildChatRequest(question, token.value)) == Transport(msg)
    ensures CompletionStep(question, token, complete) == Err(500, ProxyErrorPrefix + msg)
  {
  }

  /** A reply without `choices`, or with an empty list, is a 500. */
  lemma MissingChoicesIs500(question: string, token: Option<string>,
                            complete: ChatRequest -> Completion,
                            choices: Option<seq<Choice>>)
    requires Truthy(token)
    requires complete(BuildChatRequest(question, token.value)) == Reply(choices)
    requires choices.None? || choices.value == []
    ensures CompletionStep(question, token, complete) == Err(500, InvalidResponseDetail)
  {
  }

  /** The answer is the first choice's content with exactly its leading and
      trailing whitespace removed and nothing else changed. */
  lemma CompletionAnswerIsStrippedContent(question: string, token: Option<string>,
                                          complete: ChatRequest -> Completion,
                                          choices: seq<Choice>, content: string)
    requires Truthy(token)
    requires complete(BuildChatRequest(question, token.value)) == Reply(Some(choices))
    requires choices != [] && choices[0].content == Some(content)
    ensures CompletionStep(question, token, complete).Answer?
    ensures IsStripOf(content, CompletionStep(question, token, complete).answer, IsWhitespace)
  {
    assert CompletionStep(question, token, complete) == Answer(Strip(content));
  }

  /** Any slice of the content with only whitespace outside it and none at
      its ends is the answer: the answer is fixed exactly. */
  lemma CompletionAnswerUnique(question: string, token: Option<string>,
                               complete: ChatRequest -> Completion,
                               choices: seq<Choice>, content: string, a: string)
    requires Truthy(token)
    requires complete(BuildChatRequest(question, token.value)) == Reply(Some(choices))
    requires choices != [] && choices[0].content == Some(content)
    requires IsStripOf(content, a, IsWhitespace)
    ensures CompletionStep(question, token, complete) == Answer(a)
  {
    assert CompletionStep(question, token, complete) == Answer(Strip(content));
    StripByUnique(content, a, IsWhitespace);
  }

  // ---------------------------------------------------------------------
  // A worked example
  // ---------------------------------------------------------------------

  /** A zip holding one CSV whose `answer` column starts with "42" is
      answered "42", even with no token configured. */
  lemma ZipAnswerExample()
    ensures Dispatch(None, Some("What is the answer?"),
                     Some(Upload("q.zip", Archive(["notes.txt", "data.csv"],
                                                  m => Table(["id", "answer"], Value("42"))))),
                     None, req => Transport("unreachable"))
         == Answer("42")
  {
    FirstCandidateIsEarliest(["notes.txt", "data.csv"], 1);
  }
}
