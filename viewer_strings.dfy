/** ViewerStrings.kt: the texts the viewer shows, and the rule that turns a
    download or rendering error into the message of the error dialog. */
module ViewerStrings {
  import opened Wrappers
  import opened Jvm
  import PdfDownloader

  /** The twelve configurable texts. */
  datatype ViewerStrings = ViewerStrings(
    errorPdfCorrupted: string,
    errorNoInternet: string,
    fileSavedSuccessfully: string,
    fileSavedToDownloads: string,
    fileNotDownloadedYet: string,
    permissionRequired: string,
    permissionRequiredTitle: string,
    genericError: string,
    retry: string,
    cancel: string,
    grant: string,
    errorDialogTitle: string)

  const TIMEOUT_TEXT: string := "Network timeout! Please check your connection."
  const NOT_FOUND_TEXT: string := "File not found on the server."
  const NOT_PDF_TEXT: string := "The server returned a non-PDF file. Please check the URL."
  const CORRUPTED_TEXT: string := "The file appears to be corrupted or is not a valid PDF."
  const INCOMPLETE_TEXT: string := "The download was incomplete. Please check your internet connection and try again."
  const RETRIES_TEXT: string := "Failed to download the PDF after multiple attempts. Please check your internet connection."
  const DEFAULT_PREFIX: string := "An unexpected error occurred: "

  /** Which branch of `getMessageForError` answers. */
  datatype ErrorMessage =
    | NoInternet | Timeout | NotFound | NotPdf | Corrupted | Incomplete | TooManyAttempts
    | Unexpected(detail: string)
  {
    /** The text shown for the branch. */
    function Text(strings: ViewerStrings): string {
      match this
      case NoInternet => strings.errorNoInternet
      case Timeout => TIMEOUT_TEXT
      case NotFound => NOT_FOUND_TEXT
      case NotPdf => NOT_PDF_TEXT
      case Corrupted => CORRUPTED_TEXT
      case Incomplete => INCOMPLETE_TEXT
      case TooManyAttempts => RETRIES_TEXT
      case Unexpected(detail) => DEFAULT_PREFIX + detail
    }
  }

  /** The message checks, in the order they are tried: a pattern the error's
      message must contain, and the branch that answers then. */
  const MESSAGE_RULES: seq<(string, ErrorMessage)> := [
    ("Invalid content type received", NotPdf),
    ("Downloaded file is not a valid PDF", Corrupted),
    ("Incomplete download", Incomplete),
    ("Failed to download after", TooManyAttempts)
  ]

  /** The exception classes that are recognised by type. */
  predicate IsTyped(error: Throwable) {
    error.IoException? && error.kind != PlainIo
  }

  /** `"${error.localizedMessage}"`: the message, or "null" when there is none. */
  function MessageText(message: Option<string>): string {
    match message
    case Some(m) => m
    case None => "null"
  }

  /** The answer of the first rule whose pattern occurs in `message`, if any. */
  function FirstRule(message: string, rules: seq<(string, ErrorMessage)>): (r: Option<ErrorMessage>)
    ensures r.None? <==> forall i :: 0 <= i < |rules| ==> !Contains(message, rules[i].0)
    ensures r.Some? ==> exists i :: 0 <= i < |rules| && rules[i].1 == r.value && Contains(message, rules[i].0)
                          && forall j :: 0 <= j < i ==> !Contains(message, rules[j].0)
  {
    if rules == [] then None
    else if Contains(message, rules[0].0) then Some(rules[0].1)
    else
      var r := FirstRule(message, rules[1..]);
      assert forall i :: 1 <= i < |rules| ==> rules[i] == rules[1..][i - 1];
      r
  }

  /** The branch for an error that is not recognised by type: the first
      matching rule, otherwise the default. A missing message matches no rule. */
  function ByMessage(message: Option<string>): ErrorMessage {
    var rule := if message.Some? then FirstRule(message.value, MESSAGE_RULES) else None;
    rule.GetOr(Unexpected(MessageText(message)))
  }

  /** The branch of `getMessageForError` that answers for `error`: the type
      checks first, then the message rules in order. */
  function Classify(error: Throwable): (m: ErrorMessage)
    ensures error.IoException? && error.kind == UnknownHost ==> m == NoInternet
    ensures error.IoException? && error.kind == SocketTimeout ==> m == Timeout
    ensures error.IoException? && error.kind == FileNotFound ==> m == NotFound
    ensures !IsTyped(error) ==> m == ByMessage(error.message)
  {
    FirstRuleUnrolled(error.message);
    if error.IoException? && error.kind == UnknownHost then NoInternet
    else if error.IoException? && error.kind == SocketTimeout then Timeout
    else if error.IoException? && error.kind == FileNotFound then NotFound
    else if error.message.Some? && Contains(error.message.value, "Invalid content type received") then NotPdf
    else if error.message.Some? && Contains(error.message.value, "Downloaded file is not a valid PDF") then Corrupted
    else if error.message.Some? && Contains(error.message.value, "Incomplete download") then Incomplete
    else if error.message.Some? && Contains(error.message.value, "Failed to download after") then TooManyAttempts
    else Unexpected(MessageText(error.message))
  }

  /** `strings.getMessageForError(error)`. */
  function GetMessageForError(strings: ViewerStrings, error: Throwable): (text: string)
    ensures error.IoException? && error.kind == UnknownHost ==> text == strings.errorNoInternet
    ensures error.IoException? && error.kind == SocketTimeout ==> text == TIMEOUT_TEXT
    ensures error.IoException? && error.kind == FileNotFound ==> text == NOT_FOUND_TEXT
    ensures !IsTyped(error) ==> text == ByMessage(error.message).Text(strings)
    ensures !IsTyped(error) && ByMessage(error.message).Unexpected? ==>
              text == DEFAULT_PREFIX + MessageText(error.message)
  {
    Classify(error).Text(strings)
  }

  /** For an error not recognised by type, each message rule gives its own
      fixed text. */
  lemma MessageRuleTexts(strings: ViewerStrings, error: Throwable)
    requires !IsTyped(error)
    ensures ByMessage(error.message) == NotPdf ==> GetMessageForError(strings, error) == NOT_PDF_TEXT
    ensures ByMessage(error.message) == Corrupted ==> GetMessageForError(strings, error) == CORRUPTED_TEXT
    ensures ByMessage(error.message) == Incomplete ==> GetMessageForError(strings, error) == INCOMPLETE_TEXT
    ensures ByMessage(error.message) == TooManyAttempts ==> GetMessageForError(strings, error) == RETRIES_TEXT
  {
  }

  /** The rule table read as the chain of checks. */
  lemma FirstRuleUnrolled(message: Option<string>)
    ensures message.Some? ==>
              FirstRule(message.value, MESSAGE_RULES) ==
                if Contains(message.value, "Invalid content type received") then Some(NotPdf)
                else if Contains(message.value, "Downloaded file is not a valid PDF") then Some(Corrupted)
                else if Contains(message.value, "Incomplete download") then Some(Incomplete)
                else if Contains(message.value, "Failed to download after") then Some(TooManyAttempts)
                else None
  {
    if message.Some? {
      var m := message.value;
      var r := MESSAGE_RULES;
      assert r[1..][1..][1..][1..] == [];
      assert FirstRule(m, r[1..][1..][1..]) == if Contains(m, r[3].0) then Some(r[3].1) else None;
      assert FirstRule(m, r[1..][1..]) == if Contains(m, r[2].0) then Some(r[2].1) else FirstRule(m, r[1..][1..][1..]);
      assert FirstRule(m, r[1..]) == if Contains(m, r[1].0) then Some(r[1].1) else FirstRule(m, r[1..][1..]);
    }
  }

  /** The type checks win over the message checks: a recognised exception
      gets its own branch whatever its message says. */
  lemma TypeBeatsMessage(kind: IoKind, m1: Option<string>, m2: Option<string>)
    requires kind != PlainIo
    ensures Classify(IoException(kind, m1)) == Classify(IoException(kind, m2))
  {
  }

  lemma ContainsItself(s: string, pat: string)
    requires |pat| <= |s| && s[..|pat|] == pat
    ensures Contains(s, pat)
  {
    assert OccursAt(s, pat, 0);
  }

  /** For an error not recognised by type, the default branch answers exactly
      when its message is missing or contains none of the patterns. */
  lemma DefaultExactlyWhenNoRuleMatches(error: Throwable)
    requires !IsTyped(error)
    ensures Classify(error).Unexpected? <==>
              (error.message.None? || forall i :: 0 <= i < |MESSAGE_RULES| ==> !Contains(error.message.value, MESSAGE_RULES[i].0))
    ensures Classify(error).Unexpected? ==> Classify(error) == Unexpected(MessageText(error.message))
  {
    if error.message.Some? {
      var r := FirstRule(error.message.value, MESSAGE_RULES);
      if r.Some? {
        var i :| 0 <= i < |MESSAGE_RULES| && MESSAGE_RULES[i].1 == r.value;
        assert !MESSAGE_RULES[i].1.Unexpected?;
      }
    }
  }

  /** The downloader's length-mismatch error gets the incomplete-download branch. */
  lemma IncompleteDownloadText(strings: ViewerStrings)
    ensures Classify(PdfDownloader.INCOMPLETE) == Incomplete
    ensures GetMessageForError(strings, PdfDownloader.INCOMPLETE) == INCOMPLETE_TEXT
  {
    var m := "Incomplete download";
    assert !Contains(m, "Invalid content type received") && !Contains(m, "Downloaded file is not a valid PDF");
    ContainsItself(m, m);
    assert Classify(PdfDownloader.INCOMPLETE) == Incomplete;
  }

  /** The downloader's final error never gets the default branch, whatever
      the URL; when the URL contains none of the earlier patterns it gets the
      failed-after-retries branch. */
  lemma FinalErrorText(url: string)
    ensures !Classify(PdfDownloader.FinalError(url)).Unexpected?
    ensures var m := PdfDownloader.FinalError(url).message.value;
            (forall i :: 0 <= i < 3 ==> !Contains(m, MESSAGE_RULES[i].0)) ==>
              Classify(PdfDownloader.FinalError(url)) == TooManyAttempts
  {
    var m := PdfDownloader.FinalError(url).message.value;
    ContainsItself(m, "Failed to download after");
    DefaultExactlyWhenNoRuleMatches(PdfDownloader.FinalError(url));
  }
}
