/**
 * generate_readme and generate_readme_content of generator/services.py: look the URL
 * up in the cache, otherwise parse it, fetch the repository record, ask the model for
 * a README and validate it, store it for a day, and retry the generation once without
 * license information when the failure text mentions both "404" and "license".
 *
 * GitHub and the language model are collaborators seen only through their answers:
 * each is an object with an answer function, indexed by how many calls came before,
 * and a log of the calls it received. The cache is a map held by the service object.
 */
module Generator {
  import opened Wrappers
  import opened Text
  import opened Exceptions
  import opened Prompt
  import RepoInfo
  import Markdown

  const CACHE_PREFIX := "readme_"
  const CACHE_TIMEOUT := 86400
  const NO_CONTENT := "Gemini did not return any content"
  const FAILED := "Failed to generate README: "
  const FALLBACK_FAILED := "Failed to generate README (fallback attempt): "
  const RETRY_MARK := "404"
  const RETRY_TOPIC := "license"
  /** The text of the content gate's ValidationError: "['Markdown validation failed:
      Generated content is too short or invalid']". */
  const TOO_SHORT_TEXT := "['" + (Markdown.VALIDATION_PREFIX + Markdown.TOO_SHORT) + "']"

  /** The cache key: the prefix, then the URL itself, so distinct URLs never share a key. */
  function CacheKey(url: string): (key: string)
    ensures StartsWith(key, CACHE_PREFIX) && key[|CACHE_PREFIX|..] == url
  {
    CACHE_PREFIX + url
  }

  datatype CacheEntry = CacheEntry(value: string, timeout: nat)

  /** get_repo_data: the record for owner/name, or the exception it raised. */
  class GitHubApi {
    const answer: (string, string, nat) -> Result<RepoData, Error>
    var requests: seq<(string, string)>

    constructor (answer: (string, string, nat) -> Result<RepoData, Error>)
      ensures this.answer == answer && requests == []
    {
      this.answer := answer;
      requests := [];
    }

    method GetRepoData(owner: string, repoName: string) returns (r: Result<RepoData, Error>)
      modifies this
      ensures requests == old(requests) + [(owner, repoName)]
      ensures r == answer(owner, repoName, |old(requests)|)
    {
      r := answer(owner, repoName, |requests|);
      requests := requests + [(owner, repoName)];
    }
  }

  /** model.generate_content followed by response.text: the text, or the exception. */
  class GeminiModel {
    const answer: (PromptFields, nat) -> Result<string, Error>
    var prompts: seq<PromptFields>

    constructor (answer: (PromptFields, nat) -> Result<string, Error>)
      ensures this.answer == answer && prompts == []
    {
      this.answer := answer;
      prompts := [];
    }

    method GenerateContent(prompt: PromptFields) returns (r: Result<string, Error>)
      modifies this
      ensures prompts == old(prompts) + [prompt]
      ensures r == answer(prompt, |old(prompts)|)
    {
      r := answer(prompt, |prompts|);
      prompts := prompts + [prompt];
    }
  }

  /** What generate_readme_content makes of the model's answer: an exception passes
      through, an empty text raises, and any other text goes through the content gate,
      which returns it or raises its ValidationError. */
  function ContentOf(response: Result<string, Error>, dataChunks: string -> seq<string>): (r: Result<string, Error>)
    ensures response.Failure? ==> r == response
    ensures response == Success("") ==> r == Failure(ValueError(NO_CONTENT))
    ensures response.Success? && response.value != "" ==>
      r == Markdown.CheckPlainText(response.value, Join(dataChunks(response.value), ""))
    ensures r.Success? ==> response.Success? && r.value == response.value && r.value != ""
    ensures r.Success? <==> response.Success? && response.value != ""
                            && |Strip(Join(dataChunks(response.value), ""), WHITESPACE)| >= Markdown.MIN_PLAIN_TEXT
  {
    match response
    case Failure(e) => Failure(e)
    case Success(text) =>
      if text == "" then Failure(ValueError(NO_CONTENT))
      else Markdown.CheckPlainText(text, Join(dataChunks(text), ""))
  }

  /** How the try block of generate_readme ends: with a validated README, or with an
      exception's text and repo_data if it was bound by then. */
  datatype Outcome = Generated(content: string) | Failed(message: string, data: Option<RepoData>)

  /** The try block's outcome and the calls it made on GitHub and on the model. */
  datatype Attempt = Attempt(outcome: Outcome, requests: seq<(string, string)>, prompts: seq<PromptFields>)

  /** The except branch's result and the prompts it sent. */
  datatype Recovery = Recovery(result: Result<string, string>, prompts: seq<PromptFields>)

  /** One call of generate_readme: the value it returns, the README it stores under the
      URL's key (if any), and the calls it made on GitHub and on the model. */
  datatype Trace = Trace(
    result: Result<string, string>,
    stored: Option<string>,
    requests: seq<(string, string)>,
    prompts: seq<PromptFields>)

  /** The failure text asks for the license fallback. */
  predicate AsksForRetry(message: string) {
    Contains(message, RETRY_MARK) && Contains(message, RETRY_TOPIC)
  }

  /** The try block: parse the URL, fetch the record, name it, generate and validate.
      It fetches once exactly when the URL parses. */
  function Try(url: string,
               github: (string, string, nat) -> Result<RepoData, Error>, requestsBefore: nat,
               gemini: (PromptFields, nat) -> Result<string, Error>, promptsBefore: nat,
               dataChunks: string -> seq<string>): (a: Attempt)
    ensures TriedOnce(a)
    ensures AnsweredBy(a, gemini, promptsBefore, dataChunks)
    ensures a.requests == (if RepoInfo.ExtractRepoInfo(url).Success? then [RepoInfo.ExtractRepoInfo(url).value] else [])
  {
    match RepoInfo.ExtractRepoInfo(url)
    case Failure(e) => Attempt(Failed(e.Str(), None), [], [])
    case Success(names) =>
      match github(names.0, names.1, requestsBefore)
      case Failure(e) => Attempt(Failed(e.Str(), None), [names], [])
      case Success(fetched) =>
        var data := fetched.(name := Some(names.1));
        var prompt := PromptOf(data);
        match ContentOf(gemini(prompt, promptsBefore), dataChunks)
        case Success(v) => Attempt(Generated(v), [names], [prompt])
        case Failure(e) => Attempt(Failed(e.Str(), Some(data)), [names], [prompt])
  }

  /** The except branch, given the failure's text and repo_data when it was bound: the
      single fallback when the text asks for it, the wrapped error otherwise. Without
      repo_data the fallback itself fails on the unbound name. Only the fallback's own
      prompt can produce a README here. */
  function Recover(message: string, data: Option<RepoData>,
                   gemini: (PromptFields, nat) -> Result<string, Error>, promptsBefore: nat,
                   dataChunks: string -> seq<string>): (rec: Recovery)
    ensures |rec.prompts| <= 1
    ensures rec.result.Success? ==> |rec.prompts| == 1
    ensures rec.result.Success? ==> ContentOf(gemini(rec.prompts[0], promptsBefore), dataChunks) == Success(rec.result.value)
  {
    if !AsksForRetry(message) then Recovery(Failure(FAILED + message), [])
    else if data.None? then Recovery(Failure(FALLBACK_FAILED + UnboundLocalError("repo_data").Str()), [])
    else
      var prompt := PromptOf(data.value.(license := None));
      match ContentOf(gemini(prompt, promptsBefore), dataChunks)
      case Success(v) => Recovery(Success(v), [prompt])
      case Failure(e) => Recovery(Failure(FALLBACK_FAILED + e.Str()), [prompt])
  }

  /** The rest of generate_readme once the try block has ended: a generated README is
      returned and stored; a failure goes through the except branch, whose prompts
      follow the try block's. */
  function Conclude(a: Attempt, gemini: (PromptFields, nat) -> Result<string, Error>, promptsBefore: nat,
                    dataChunks: string -> seq<string>): Trace
  {
    match a.outcome
    case Generated(v) => Trace(Success(v), Some(v), a.requests, a.prompts)
    case Failed(message, data) =>
      var rec := Recover(message, data, gemini, promptsBefore + |a.prompts|, dataChunks);
      Trace(rec.result, if rec.result.Success? then Some(rec.result.value) else None,
            a.requests, a.prompts + rec.prompts)
  }

  /** generate_readme after a cache miss. */
  function Miss(url: string,
                github: (string, string, nat) -> Result<RepoData, Error>, requestsBefore: nat,
                gemini: (PromptFields, nat) -> Result<string, Error>, promptsBefore: nat,
                dataChunks: string -> seq<string>): Trace
  {
    Conclude(Try(url, github, requestsBefore, gemini, promptsBefore, dataChunks), gemini, promptsBefore, dataChunks)
  }

  /** generate_readme as a function of the cached value and of the collaborators' answers:
      a non-empty cached value is returned as it is. A README is stored only on a miss,
      and the repository is fetched at most once. */
  function Run(cached: Option<string>, url: string,
               github: (string, string, nat) -> Result<RepoData, Error>, requestsBefore: nat,
               gemini: (PromptFields, nat) -> Result<string, Error>, promptsBefore: nat,
               dataChunks: string -> seq<string>): (t: Trace)
    ensures t.stored.Some? ==> cached.None? || cached.value == ""
    ensures |t.requests| <= 1
  {
    if cached.Some? && cached.value != "" then Trace(Success(cached.value), None, [], [])
    else Miss(url, github, requestsBefore, gemini, promptsBefore, dataChunks)
  }

  /** What the try block can have done: at most one fetch and one prompt; a generated
      README is non-empty and comes after exactly one prompt; on a failure repo_data is
      bound exactly when the prompt was sent, and the prompt is the one built from it. */
  predicate TriedOnce(a: Attempt) {
    && |a.requests| <= 1
    && |a.prompts| <= 1
    && (a.outcome.Generated? ==> a.outcome.content != "" && |a.prompts| == 1)
    && (a.outcome.Failed? ==> (a.outcome.data.Some? <==> |a.prompts| == 1))
    && (a.outcome.Failed? && a.outcome.data.Some? ==> a.prompts == [PromptOf(a.outcome.data.value)])
  }

  /** The try block's README, if any, is what ContentOf makes of the model's answer to
      its one prompt: the answer itself, after the content gate. */
  predicate AnsweredBy(a: Attempt, gemini: (PromptFields, nat) -> Result<string, Error>, promptsBefore: nat,
                       dataChunks: string -> seq<string>) {
    a.outcome.Generated? ==>
      |a.prompts| == 1 && ContentOf(gemini(a.prompts[0], promptsBefore), dataChunks) == Success(a.outcome.content)
  }

  /** The except branch sends at most one prompt, and only when the text asks for the
      fallback and repo_data is bound: the record's prompt without its license. Its
      README is never empty; its failure carries the fallback prefix; without the retry
      marks it only wraps the text. */
  lemma RecoverShape(message: string, data: Option<RepoData>,
                     gemini: (PromptFields, nat) -> Result<string, Error>, promptsBefore: nat,
                     dataChunks: string -> seq<string>)
    ensures var rec := Recover(message, data, gemini, promptsBefore, dataChunks);
      && |rec.prompts| <= 1
      && (rec.prompts != [] ==> AsksForRetry(message) && data.Some? && rec.prompts == [PromptOf(data.value.(license := None))])
      && (rec.result.Success? ==> rec.result.value != "")
      && (!AsksForRetry(message) ==> rec == Recovery(Failure(FAILED + message), []))
      && (AsksForRetry(message) && rec.result.Failure? ==> StartsWith(rec.result.error, FALLBACK_FAILED))
      && (AsksForRetry(message) && data.None? ==>
            rec == Recovery(Failure(FALLBACK_FAILED + UnboundLocalError("repo_data").Str()), []))
      && (AsksForRetry(message) && data.Some? && rec.result.Failure? ==>
            rec.result.error
              == FALLBACK_FAILED + ContentOf(gemini(PromptOf(data.value.(license := None)), promptsBefore), dataChunks).error.Str())
  {
    if AsksForRetry(message) {
      if data.Some? {
        var c := ContentOf(gemini(PromptOf(data.value.(license := None)), promptsBefore), dataChunks);
        if c.Failure? {
          assert (FALLBACK_FAILED + c.error.Str())[..|FALLBACK_FAILED|] == FALLBACK_FAILED;
        }
      } else {
        var text := FALLBACK_FAILED + UnboundLocalError("repo_data").Str();
        assert text[..|FALLBACK_FAILED|] == FALLBACK_FAILED;
      }
    }
  }

  /** A README stored after the try block is the returned one and is never empty. */
  lemma ConcludeStores(a: Attempt, gemini: (PromptFields, nat) -> Result<string, Error>, promptsBefore: nat,
                       dataChunks: string -> seq<string>)
    requires TriedOnce(a)
    ensures var t := Conclude(a, gemini, promptsBefore, dataChunks);
      && (t.stored.Some? <==> t.result.Success?)
      && (t.stored.Some? ==> t.stored.value == t.result.value && t.stored.value != "")
  {
    if a.outcome.Failed? {
      RecoverShape(a.outcome.message, a.outcome.data, gemini, promptsBefore + |a.prompts|, dataChunks);
    }
  }

  /** A stored README is the model's answer to the last prompt sent, and it passed the
      content gate: its stripped plain text has at least fifty characters. */
  predicate StoredValidated(t: Trace, gemini: (PromptFields, nat) -> Result<string, Error>, promptsBefore: nat,
                            dataChunks: string -> seq<string>) {
    t.stored.Some? ==>
      && |t.prompts| >= 1
      && gemini(t.prompts[|t.prompts| - 1], promptsBefore + |t.prompts| - 1) == Success(t.stored.value)
      && PassesGate(t.stored.value, dataChunks)
  }

  /** A text the content gate accepts: its stripped plain text has at least fifty characters. */
  predicate PassesGate(v: string, dataChunks: string -> seq<string>) {
    |Strip(Join(dataChunks(v), ""), WHITESPACE)| >= Markdown.MIN_PLAIN_TEXT
  }

  /** A README stored after the try block is the model's answer to the last prompt
      sent, and it passed the content gate. */
  lemma ConcludeStoresValidated(a: Attempt, gemini: (PromptFields, nat) -> Result<string, Error>, promptsBefore: nat,
                                dataChunks: string -> seq<string>)
    requires TriedOnce(a) && AnsweredBy(a, gemini, promptsBefore, dataChunks)
    ensures StoredValidated(Conclude(a, gemini, promptsBefore, dataChunks), gemini, promptsBefore, dataChunks)
  {
    var t := Conclude(a, gemini, promptsBefore, dataChunks);
    if a.outcome.Failed? {
      var rec := Recover(a.outcome.message, a.outcome.data, gemini, promptsBefore + |a.prompts|, dataChunks);
      if rec.result.Success? {
        assert t.prompts == a.prompts + rec.prompts;
        assert t.prompts[|t.prompts| - 1] == rec.prompts[0];
      }
    }
  }

  /** At most one fetch and two prompts; a second prompt only after a failure whose text
      asks for the fallback, and then equal to the first but for the license line. */
  lemma ConcludeRetriesOnce(a: Attempt, gemini: (PromptFields, nat) -> Result<string, Error>, promptsBefore: nat,
                            dataChunks: string -> seq<string>)
    requires TriedOnce(a)
    ensures var t := Conclude(a, gemini, promptsBefore, dataChunks);
      && t.requests == a.requests && |t.requests| <= 1 && |t.prompts| <= 2
      && (|t.prompts| == 2 ==> a.outcome.Failed? && AsksForRetry(a.outcome.message)
                               && t.prompts[1] == t.prompts[0].(license := NO_LICENSE))
  {
    if a.outcome.Failed? {
      RecoverShape(a.outcome.message, a.outcome.data, gemini, promptsBefore + |a.prompts|, dataChunks);
      if a.outcome.data.Some? {
        WithoutLicense(a.outcome.data.value);
      }
    }
  }

  /** Every failure is the try block's: wrapped with the plain prefix when its text does
      not ask for the fallback (nothing else is sent or stored), and with the fallback
      prefix when the fallback ran and failed. */
  lemma ConcludeFailure(a: Attempt, gemini: (PromptFields, nat) -> Result<string, Error>, promptsBefore: nat,
                        dataChunks: string -> seq<string>)
    ensures var t := Conclude(a, gemini, promptsBefore, dataChunks);
      && (t.result.Failure? ==> a.outcome.Failed?)
      && (a.outcome.Failed? && !AsksForRetry(a.outcome.message) ==>
            t == Trace(Failure(FAILED + a.outcome.message), None, a.requests, a.prompts))
      && (a.outcome.Failed? && AsksForRetry(a.outcome.message) && t.result.Failure? ==>
            StartsWith(t.result.error, FALLBACK_FAILED))
  {
    if a.outcome.Failed? {
      RecoverShape(a.outcome.message, a.outcome.data, gemini, promptsBefore + |a.prompts|, dataChunks);
      assert a.prompts + [] == a.prompts;
    }
  }

  /** A README stored after a miss is the returned one and is never empty. */
  lemma MissStoresContent(url: string,
                          github: (string, string, nat) -> Result<RepoData, Error>, requestsBefore: nat,
                          gemini: (PromptFields, nat) -> Result<string, Error>, promptsBefore: nat,
                          dataChunks: string -> seq<string>)
    ensures var t := Miss(url, github, requestsBefore, gemini, promptsBefore, dataChunks);
      && (t.stored.Some? <==> t.result.Success?)
      && (t.stored.Some? ==> t.stored.value == t.result.value && t.stored.value != "")
  {
    ConcludeStores(Try(url, github, requestsBefore, gemini, promptsBefore, dataChunks), gemini, promptsBefore, dataChunks);
  }

  /** A README stored after a miss is the model's answer to the last prompt sent, and
      it passed the content gate. */
  lemma MissStoresValidated(url: string,
                            github: (string, string, nat) -> Result<RepoData, Error>, requestsBefore: nat,
                            gemini: (PromptFields, nat) -> Result<string, Error>, promptsBefore: nat,
                            dataChunks: string -> seq<string>)
    ensures StoredValidated(Miss(url, github, requestsBefore, gemini, promptsBefore, dataChunks), gemini, promptsBefore, dataChunks)
  {
    var a := Try(url, github, requestsBefore, gemini, promptsBefore, dataChunks);
    ConcludeStoresValidated(a, gemini, promptsBefore, dataChunks);
  }

  /** After a miss: at most one fetch and two prompts, the second only as the license
      fallback. */
  lemma MissRetriesOnce(url: string,
                        github: (string, string, nat) -> Result<RepoData, Error>, requestsBefore: nat,
                        gemini: (PromptFields, nat) -> Result<string, Error>, promptsBefore: nat,
                        dataChunks: string -> seq<string>)
    ensures var a := Try(url, github, requestsBefore, gemini, promptsBefore, dataChunks);
      var t := Miss(url, github, requestsBefore, gemini, promptsBefore, dataChunks);
      && |t.requests| <= 1 && |t.prompts| <= 2
      && (|t.prompts| == 2 ==> a.outcome.Failed? && AsksForRetry(a.outcome.message)
                               && t.prompts[1] == t.prompts[0].(license := NO_LICENSE))
  {
    ConcludeRetriesOnce(Try(url, github, requestsBefore, gemini, promptsBefore, dataChunks), gemini, promptsBefore, dataChunks);
  }

  /** After a miss, a failure without the retry marks is reported with the plain prefix and
      the try block's text, and nothing more is sent or stored. */
  lemma MissFailure(url: string,
                    github: (string, string, nat) -> Result<RepoData, Error>, requestsBefore: nat,
                    gemini: (PromptFields, nat) -> Result<string, Error>, promptsBefore: nat,
                    dataChunks: string -> seq<string>)
    ensures var a := Try(url, github, requestsBefore, gemini, promptsBefore, dataChunks);
      var t := Miss(url, github, requestsBefore, gemini, promptsBefore, dataChunks);
      && (t.result.Failure? ==> a.outcome.Failed?)
      && (a.outcome.Failed? && !AsksForRetry(a.outcome.message) ==>
            t == Trace(Failure(FAILED + a.outcome.message), None, a.requests, a.prompts))
      && (a.outcome.Failed? && AsksForRetry(a.outcome.message) && t.result.Failure? ==>
            StartsWith(t.result.error, FALLBACK_FAILED))
  {
    ConcludeFailure(Try(url, github, requestsBefore, gemini, promptsBefore, dataChunks), gemini, promptsBefore, dataChunks);
  }

  /** The texts of a URL the parser rejects and of an empty answer hold no "404", so
      neither asks for the fallback. */
  lemma FixedTextsDoNotRetry()
    ensures !AsksForRetry(RepoInfo.INVALID_URL) && !AsksForRetry(NO_CONTENT)
  {
    assert RETRY_MARK[0] == '4';
    assert '4' !in RepoInfo.INVALID_URL;
    assert '4' !in NO_CONTENT;
    MissingFirstChar(RepoInfo.INVALID_URL, RETRY_MARK);
    MissingFirstChar(NO_CONTENT, RETRY_MARK);
  }

  /** str() of the content gate's ValidationError, which holds no "404" either. */
  lemma TooShortText()
    ensures ValidationError(Markdown.VALIDATION_PREFIX + Markdown.TOO_SHORT).Str() == TOO_SHORT_TEXT
    ensures !AsksForRetry(TOO_SHORT_TEXT)
  {
    assert RETRY_MARK[0] == '4';
    NoDigitFour();
    MissingFirstChar(TOO_SHORT_TEXT, RETRY_MARK);
  }

  lemma NoDigitFour()
    ensures '4' !in TOO_SHORT_TEXT
  {
    assert '4' !in Markdown.VALIDATION_PREFIX;
    assert '4' !in Markdown.TOO_SHORT;
  }

  /** A URL that extract_repo_info rejects fails with the plain prefix, before any call. */
  lemma InvalidUrlFails(url: string,
                        github: (string, string, nat) -> Result<RepoData, Error>, requestsBefore: nat,
                        gemini: (PromptFields, nat) -> Result<string, Error>, promptsBefore: nat,
                        dataChunks: string -> seq<string>)
    requires RepoInfo.ExtractRepoInfo(url).Failure?
    ensures Miss(url, github, requestsBefore, gemini, promptsBefore, dataChunks)
         == Trace(Failure(FAILED + RepoInfo.INVALID_URL), None, [], [])
  {
    FixedTextsDoNotRetry();
    assert Try(url, github, requestsBefore, gemini, promptsBefore, dataChunks)
        == Attempt(Failed(RepoInfo.INVALID_URL, None), [], []);
  }

  /** Once the record is fetched, the try block ends with what the model's answer makes. */
  lemma TryAfterFetch(url: string,
                      github: (string, string, nat) -> Result<RepoData, Error>, requestsBefore: nat,
                      gemini: (PromptFields, nat) -> Result<string, Error>, promptsBefore: nat,
                      dataChunks: string -> seq<string>, owner: string, repoName: string, fetched: RepoData)
    requires RepoInfo.ExtractRepoInfo(url) == Success((owner, repoName))
    requires github(owner, repoName, requestsBefore) == Success(fetched)
    ensures var data := fetched.(name := Some(repoName));
      var c := ContentOf(gemini(PromptOf(data), promptsBefore), dataChunks);
      Try(url, github, requestsBefore, gemini, promptsBefore, dataChunks)
        == Attempt(if c.Success? then Generated(c.value) else Failed(c.error.Str(), Some(data)),
                   [(owner, repoName)], [PromptOf(data)])
  {
  }

  /** A first answer that passes the content gate is returned and stored, after one
      fetch and one prompt. */
  lemma ValidAnswerSucceeds(url: string,
                            github: (string, string, nat) -> Result<RepoData, Error>, requestsBefore: nat,
                            gemini: (PromptFields, nat) -> Result<string, Error>, promptsBefore: nat,
                            dataChunks: string -> seq<string>, owner: string, repoName: string, fetched: RepoData,
                            readme: string)
    requires RepoInfo.ExtractRepoInfo(url) == Success((owner, repoName))
    requires github(owner, repoName, requestsBefore) == Success(fetched)
    requires gemini(PromptOf(fetched.(name := Some(repoName))), promptsBefore) == Success(readme)
    requires readme != "" && |Strip(Join(dataChunks(readme), ""), WHITESPACE)| >= Markdown.MIN_PLAIN_TEXT
    ensures Miss(url, github, requestsBefore, gemini, promptsBefore, dataChunks)
         == Trace(Success(readme), Some(readme), [(owner, repoName)], [PromptOf(fetched.(name := Some(repoName)))])
  {
    TryAfterFetch(url, github, requestsBefore, gemini, promptsBefore, dataChunks, owner, repoName, fetched);
  }

  /** A first answer whose plain text is too short fails with the plain prefix and the
      ValidationError's text; it is not retried and nothing is stored. */
  lemma TooShortAnswerFails(url: string,
                            github: (string, string, nat) -> Result<RepoData, Error>, requestsBefore: nat,
                            gemini: (PromptFields, nat) -> Result<string, Error>, promptsBefore: nat,
                            dataChunks: string -> seq<string>, owner: string, repoName: string, fetched: RepoData,
                            readme: string)
    requires RepoInfo.ExtractRepoInfo(url) == Success((owner, repoName))
    requires github(owner, repoName, requestsBefore) == Success(fetched)
    requires gemini(PromptOf(fetched.(name := Some(repoName))), promptsBefore) == Success(readme)
    requires readme != "" && |Strip(Join(dataChunks(readme), ""), WHITESPACE)| < Markdown.MIN_PLAIN_TEXT
    ensures Miss(url, github, requestsBefore, gemini, promptsBefore, dataChunks)
         == Trace(Failure(FAILED + TOO_SHORT_TEXT), None, [(owner, repoName)], [PromptOf(fetched.(name := Some(repoName)))])
  {
    TooShortText();
    var data := fetched.(name := Some(repoName));
    assert Try(url, github, requestsBefore, gemini, promptsBefore, dataChunks)
        == Attempt(Failed(TOO_SHORT_TEXT, Some(data)), [(owner, repoName)], [PromptOf(data)]);
  }

  /** An empty answer from the model raises before validation: the call fails with the
      plain prefix and the empty-content text, and nothing is stored or retried. */
  lemma EmptyAnswerFails(url: string,
                         github: (string, string, nat) -> Result<RepoData, Error>, requestsBefore: nat,
                         gemini: (PromptFields, nat) -> Result<string, Error>, promptsBefore: nat,
                         dataChunks: string -> seq<string>, owner: string, repoName: string, fetched: RepoData)
    requires RepoInfo.ExtractRepoInfo(url) == Success((owner, repoName))
    requires github(owner, repoName, requestsBefore) == Success(fetched)
    requires gemini(PromptOf(fetched.(name := Some(repoName))), promptsBefore) == Success("")
    ensures Miss(url, github, requestsBefore, gemini, promptsBefore, dataChunks)
         == Trace(Failure(FAILED + NO_CONTENT), None, [(owner, repoName)], [PromptOf(fetched.(name := Some(repoName)))])
  {
    FixedTextsDoNotRetry();
    TryAfterFetch(url, github, requestsBefore, gemini, promptsBefore, dataChunks, owner, repoName, fetched);
  }

  /** A fetch failure whose text does not ask for the fallback ends the call: it fails
      with the plain prefix and str() of the error, with no prompt and nothing stored. */
  lemma FetchFailureFails(url: string,
                          github: (string, string, nat) -> Result<RepoData, Error>, requestsBefore: nat,
                          gemini: (PromptFields, nat) -> Result<string, Error>, promptsBefore: nat,
                          dataChunks: string -> seq<string>, owner: string, repoName: string, e: Error)
    requires RepoInfo.ExtractRepoInfo(url) == Success((owner, repoName))
    requires github(owner, repoName, requestsBefore) == Failure(e)
    requires !AsksForRetry(e.Str())
    ensures Miss(url, github, requestsBefore, gemini, promptsBefore, dataChunks)
         == Trace(Failure(FAILED + e.Str()), None, [(owner, repoName)], [])
  {
    assert Try(url, github, requestsBefore, gemini, promptsBefore, dataChunks)
        == Attempt(Failed(e.Str(), None), [(owner, repoName)], []);
  }

  /** A fetch failure whose text holds "404" and "license" takes the fallback while
      repo_data is still unbound: the fallback fails on the unbound name, with no prompt
      and nothing stored. */
  lemma LicenseFetchFailureIsUnbound(url: string,
                                     github: (string, string, nat) -> Result<RepoData, Error>, requestsBefore: nat,
                                     gemini: (PromptFields, nat) -> Result<string, Error>, promptsBefore: nat,
                                     dataChunks: string -> seq<string>, owner: string, repoName: string, e: Error)
    requires RepoInfo.ExtractRepoInfo(url) == Success((owner, repoName))
    requires github(owner, repoName, requestsBefore) == Failure(e)
    requires AsksForRetry(e.Str())
    ensures Miss(url, github, requestsBefore, gemini, promptsBefore, dataChunks)
         == Trace(Failure(FALLBACK_FAILED + UnboundLocalError("repo_data").Str()), None, [(owner, repoName)], [])
  {
    assert Try(url, github, requestsBefore, gemini, promptsBefore, dataChunks)
        == Attempt(Failed(e.Str(), None), [(owner, repoName)], []);
  }

  /** When the model's first answer fails with "404" and "license" in its text, the same
      record is prompted again without its license, and an answer that passes the gate
      is returned and stored. */
  lemma LicenseFallbackSucceeds(url: string,
                                github: (string, string, nat) -> Result<RepoData, Error>, requestsBefore: nat,
                                gemini: (PromptFields, nat) -> Result<string, Error>, promptsBefore: nat,
                                dataChunks: string -> seq<string>, owner: string, repoName: string, fetched: RepoData,
                                e: Error, readme: string)
    requires RepoInfo.ExtractRepoInfo(url) == Success((owner, repoName))
    requires github(owner, repoName, requestsBefore) == Success(fetched)
    requires gemini(PromptOf(fetched.(name := Some(repoName))), promptsBefore) == Failure(e)
    requires AsksForRetry(e.Str())
    requires gemini(PromptOf(fetched.(name := Some(repoName))).(license := NO_LICENSE), promptsBefore + 1) == Success(readme)
    requires ContentOf(Success(readme), dataChunks).Success?
    ensures var first := PromptOf(fetched.(name := Some(repoName)));
      Miss(url, github, requestsBefore, gemini, promptsBefore, dataChunks)
        == Trace(Success(readme), Some(readme), [(owner, repoName)], [first, first.(license := NO_LICENSE)])
  {
    var data := fetched.(name := Some(repoName));
    WithoutLicense(data);
    TryAfterFetch(url, github, requestsBefore, gemini, promptsBefore, dataChunks, owner, repoName, fetched);
    assert ContentOf(Success(readme), dataChunks) == Success(readme);
    var retry := PromptOf(data.(license := None));
    assert Recover(e.Str(), Some(data), gemini, promptsBefore + 1, dataChunks) == Recovery(Success(readme), [retry]);
  }

  /** A non-empty cached value is returned as it is, with no call and no store; an empty
      one counts as a miss. */
  lemma CacheHit(cached: Option<string>, url: string,
                 github: (string, string, nat) -> Result<RepoData, Error>, requestsBefore: nat,
                 gemini: (PromptFields, nat) -> Result<string, Error>, promptsBefore: nat,
                 dataChunks: string -> seq<string>)
    ensures var t := Run(cached, url, github, requestsBefore, gemini, promptsBefore, dataChunks);
      && (cached.Some? && cached.value != "" ==> t == Trace(Success(cached.value), None, [], []))
      && (cached.None? || cached.value == "" ==> t == Miss(url, github, requestsBefore, gemini, promptsBefore, dataChunks))
  {
  }

  /** The process-wide state generate_readme works on: the cache and its two clients. */
  class ReadmeService {
    var cache: map<string, CacheEntry>
    const github: GitHubApi
    const gemini: GeminiModel
    const dataChunks: string -> seq<string>

    constructor (github: GitHubApi, gemini: GeminiModel, dataChunks: string -> seq<string>)
      ensures cache == map[] && this.github == github && this.gemini == gemini && this.dataChunks == dataChunks
    {
      cache := map[];
      this.github := github;
      this.gemini := gemini;
      this.dataChunks := dataChunks;
    }

    /** cache.get(key): the stored value, or None. */
    function Cached(url: string): Option<string>
      reads this
    {
      if CacheKey(url) in cache then Some(cache[CacheKey(url)].value) else None
    }

    /** Every cached README passed the content gate. */
    predicate CacheValidated()
      reads this
    {
      forall k :: k in cache ==> PassesGate(cache[k].value, dataChunks)
    }

    /** No cached README is empty. */
    predicate CacheNonEmpty()
      reads this
    {
      forall k :: k in cache ==> cache[k].value != ""
    }

    method GenerateReadmeContent(data: RepoData) returns (r: Result<string, Error>)
      modifies gemini
      ensures gemini.prompts == old(gemini.prompts) + [PromptOf(data)]
      ensures r == ContentOf(gemini.answer(PromptOf(data), |old(gemini.prompts)|), dataChunks)
    {
      var response := gemini.GenerateContent(PromptOf(data));
      if response.Success? && response.value != "" {
        r := Markdown.ValidateMarkdown(response.value, dataChunks);
      } else {
        r := ContentOf(response, dataChunks);
      }
    }

    /** The try block of generate_readme, without the cache write. */
    method TryGenerate(url: string) returns (outcome: Outcome)
      modifies github, gemini
      ensures var a := Try(url, github.answer, |old(github.requests)|, gemini.answer, |old(gemini.prompts)|, dataChunks);
        && outcome == a.outcome
        && github.requests == old(github.requests) + a.requests
        && gemini.prompts == old(gemini.prompts) + a.prompts
    {
      var names := RepoInfo.ExtractRepoInfo(url);
      if names.Failure? {
        return Failed(names.error.Str(), None);
      }
      var (owner, repoName) := names.value;
      var fetched := github.GetRepoData(owner, repoName);
      if fetched.Failure? {
        return Failed(fetched.error.Str(), None);
      }
      var data := fetched.value.(name := Some(repoName));
      var content := GenerateReadmeContent(data);
      if content.Success? {
        outcome := Generated(content.value);
      } else {
        outcome := Failed(content.error.Str(), Some(data));
      }
    }

    /** The except branch of generate_readme, without the cache write. */
    method Fallback(message: string, repoData: Option<RepoData>) returns (r: Result<string, string>)
      modifies gemini
      ensures var rec := Recover(message, repoData, gemini.answer, |old(gemini.prompts)|, dataChunks);
        r == rec.result && gemini.prompts == old(gemini.prompts) + rec.prompts
    {
      if !AsksForRetry(message) {
        return Failure(FAILED + message);
      }
      if repoData.None? {
        return Failure(FALLBACK_FAILED + UnboundLocalError("repo_data").Str());
      }
      var content := GenerateReadmeContent(repoData.value.(license := None));
      if content.Success? {
        r := Success(content.value);
      } else {
        r := Failure(FALLBACK_FAILED + content.error.Str());
      }
    }

    /** The except branch and the cache write, after the try block ended with outcome. */
    method Finish(url: string, outcome: Outcome, ghost a: Attempt, ghost promptsBefore: nat) returns (r: Result<string, string>)
      requires a.outcome == outcome && |gemini.prompts| == promptsBefore + |a.prompts|
      modifies this, gemini
      ensures var t := Conclude(a, gemini.answer, promptsBefore, dataChunks);
        && r == t.result
        && cache == (if t.stored.Some? then old(cache)[CacheKey(url) := CacheEntry(t.stored.value, CACHE_TIMEOUT)]
                     else old(cache))
        && gemini.prompts == old(gemini.prompts) + (t.prompts[|a.prompts|..])
      ensures Conclude(a, gemini.answer, promptsBefore, dataChunks).prompts[..|a.prompts|] == a.prompts
    {
      if outcome.Generated? {
        assert Conclude(a, gemini.answer, promptsBefore, dataChunks)
            == Trace(Success(outcome.content), Some(outcome.content), a.requests, a.prompts);
        cache := cache[CacheKey(url) := CacheEntry(outcome.content, CACHE_TIMEOUT)];
        return Success(outcome.content);
      }
      ghost var rec := Recover(outcome.message, outcome.data, gemini.answer, |gemini.prompts|, dataChunks);
      ghost var stored := if rec.result.Success? then Some(rec.result.value) else None;
      assert Conclude(a, gemini.answer, promptsBefore, dataChunks)
          == Trace(rec.result, stored, a.requests, a.prompts + rec.prompts);
      r := Fallback(outcome.message, outcome.data);
      assert (a.prompts + rec.prompts)[|a.prompts|..] == rec.prompts;
      assert (a.prompts + rec.prompts)[..|a.prompts|] == a.prompts;
      if r.Success? {
        cache := cache[CacheKey(url) := CacheEntry(r.value, CACHE_TIMEOUT)];
      }
    }

    /** Everything generate_readme does after a cache miss. */
    method Regenerate(url: string) returns (r: Result<string, string>)
      modifies this, github, gemini
      ensures var t := Miss(url, github.answer, |old(github.requests)|, gemini.answer, |old(gemini.prompts)|, dataChunks);
        && r == t.result
        && cache == (if t.stored.Some? then old(cache)[CacheKey(url) := CacheEntry(t.stored.value, CACHE_TIMEOUT)]
                     else old(cache))
        && github.requests == old(github.requests) + t.requests
        && gemini.prompts == old(gemini.prompts) + t.prompts
    {
      ghost var promptsBefore := gemini.prompts;
      ghost var a := Try(url, github.answer, |github.requests|, gemini.answer, |gemini.prompts|, dataChunks);
      var outcome := TryGenerate(url);
      ghost var tried := gemini.prompts;
      r := Finish(url, outcome, a, |promptsBefore|);
      ghost var t := Conclude(a, gemini.answer, |promptsBefore|, dataChunks);
      assert t.prompts == a.prompts + t.prompts[|a.prompts|..];
      ConcatAssoc(promptsBefore, a.prompts, t.prompts[|a.prompts|..]);
    }

    method GenerateReadme(url: string) returns (r: Result<string, string>)
      modifies this, github, gemini
      ensures var t := Run(old(Cached(url)), url, github.answer, |old(github.requests)|,
                           gemini.answer, |old(gemini.prompts)|, dataChunks);
        && r == t.result
        && cache == (if t.stored.Some? then old(cache)[CacheKey(url) := CacheEntry(t.stored.value, CACHE_TIMEOUT)]
                     else old(cache))
        && github.requests == old(github.requests) + t.requests
        && gemini.prompts == old(gemini.prompts) + t.prompts
      ensures old(CacheNonEmpty()) ==> CacheNonEmpty()
      ensures old(CacheValidated()) ==> CacheValidated()
    {
      var cached := Cached(url);
      if cached.Some? && cached.value != "" {
        return Success(cached.value);
      }
      ghost var requests0, prompts0 := |github.requests|, |gemini.prompts|;
      r := Regenerate(url);
      MissStoresContent(url, github.answer, requests0, gemini.answer, prompts0, dataChunks);
      MissStoresValidated(url, github.answer, requests0, gemini.answer, prompts0, dataChunks);
    }
  }
}
