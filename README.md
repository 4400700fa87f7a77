# README generator core, modelled in Dafny

This project models the core of a Django service that writes README files for GitHub
repositories, and proves properties of that model. The core has three pieces:

- **The URL check of the input form.** `RepoForm.clean_repo_url` applies
  `^https?://github\.com/[^/]+/[^/]+/?$` with `re.match`. Module `Forms` writes this
  pattern out by hand. It keeps Python's reading of `$`, which also matches just before
  one final `"\n"`. It also keeps `[^/]`, which matches a newline.
- **The URL parser.** `extract_repo_info` strips `/`, splits on `/` and returns the last
  two parts. It is module `RepoInfo`, built on models of `str.strip`, `str.split`,
  `str.join` and `sub in s` in module `Text`.
- **The generator.**
  - Module `Markdown` holds the content gate: `HTMLFilter` and `validate_markdown`.
  - Module `Prompt` holds the parts of the prompt that depend on the data.
  - Module `Generator` holds `generate_readme_content` and the orchestrator
    `generate_readme`. It looks up a cache, parses, fetches, generates and validates.
    It stores the result for a day. It retries once without the license, but only when
    the failure text contains both `"404"` and `"license"`.

`generate_readme` is a method of class `Generator.ReadmeService`. The class holds the
cache as a `map` field, plus two collaborator objects:

- `GitHubApi` stands for `get_repo_data`.
- `GeminiModel` stands for `model.generate_content(...).text`.

Each collaborator answers through a function of its arguments and of the number of
calls made so far. Each keeps a log of the calls it received. The method is proved
against the function `Generator.Run`: it returns what `Run` computes, leaves the cache
as `Run` dictates, and makes exactly the calls `Run` lists. The lemmas about `Run`,
`Miss` and `Conclude` then state the control-flow properties.

Exceptions are values of `Exceptions.Error`. `Error.Str` gives the text `str(e)`
produces:

- a `ValueError` renders as its message;
- a Django `ValidationError` built from one message renders as `"['message']"`. This
  holds for messages without a quote, a backslash or a non-printable character, such as
  the content gate's own message; for others Python's `repr` would switch to double quotes
  or escapes, which the model does not reproduce;
- an `UnboundLocalError` renders with the wording of Python 3.11.

Behaviours of the code that the model keeps:

- A URL of the form pattern followed by one final newline is accepted. For the `"/\n"`
  ending (`"https://github.com/o/r/\n"`) `extract_repo_info` then returns `("r", "\n")`;
  for a newline right after the repository segment (`"https://github.com/o/r\n"`) it
  returns `("o", "r\n")` (`RepoInfo.AcceptedUrlExtracts`). The form's `URLField` strips surrounding
  whitespace before `clean_repo_url` runs, so this input does not reach the check
  through the form.
- In the except branch, `repo_data` is bound only if `get_repo_data` returned. A fetch
  failure whose text asks for the fallback therefore fails again inside the fallback.
  The failure is on the unbound name `repo_data`, and no prompt is sent
  (`Generator.LicenseFetchFailureIsUnbound`).
- A cached empty string counts as a miss, because `if cached:` tests truthiness.
  Nothing empty is ever stored (`Generator.ReadmeService.GenerateReadme` keeps
  `CacheNonEmpty`).

The form accepts only URLs with two path segments, so a profile URL with one segment
is rejected (`Forms.ExampleProfileRejected`). The cache key is `"readme_" + url`
alone.

## Model

| member | source | states |
|---|---|---|
| Forms.CleanRepoUrl | generator/forms.py:17-21 | accepts exactly the strings of the pattern (as Render of some well-formed RepoUrl), returns an accepted URL unchanged, and rejects with "Please enter a valid GitHub repository URL" |
| Forms.IsRepoUrl | generator/forms.py:19 | re.match of the pattern succeeds; it can only succeed on a URL starting with "https://github.com/" or "http://github.com/" |
| Forms.IsRepoUrlMatchesPattern | generator/forms.py:19 | the hand-written matcher holds exactly for the strings the pattern describes: scheme, github.com, two segments without '/', optional '/', optional final newline |
| Forms.ParseSound | generator/forms.py:19 | whatever the matcher parses is well formed and renders back to the input URL |
| Forms.ParseComplete | generator/forms.py:19 | every well-formed URL is parsed back into exactly its parts |
| Forms.AcceptedScheme | generator/forms.py:19 | an accepted URL starts with "https://github.com/" or "http://github.com/" |
| Forms.ExampleAccepted | generator/forms.py:19 | "https://github.com/o/r/" is accepted unchanged |
| Forms.ExampleProfileRejected | generator/forms.py:19 | a URL with one path segment is rejected |
| Forms.ExampleDeepPathRejected | generator/forms.py:19 | a URL with a third path segment is rejected |
| RepoInfo.ExtractRepoInfo | generator/services.py:32-37 | fails with ValueError("Invalid GitHub URL") exactly when the URL stripped of '/' holds no '/'; otherwise returns the last two '/'-separated fields of the stripped URL |
| RepoInfo.ExtractRepoInfoWhenFields | generator/services.py:34-37 | the pair returned is the only pair of last two fields, so any such pair is the answer |
| RepoInfo.AcceptedUrlExtracts | generator/forms.py:19 | every URL the form accepts parses, to its owner and repository segments, or to the repository segment and "\n" when it ends in "/\n" |
| RepoInfo.ExampleUrl | generator/services.py:34-37 | "https://github.com/o/r" gives ("o", "r") |
| RepoInfo.ExampleSlashes | generator/services.py:34-36 | "///" strips to "", which splits to one part, so it fails |
| Text.TrimLeft | generator/services.py:34 | str.lstrip never lengthens the string (its meaning is in TrimLeftFacts) |
| Text.TrimRight | generator/services.py:34 | str.rstrip never lengthens the string (its meaning is in TrimRightFacts) |
| Text.TrimLeftFacts | generator/services.py:34 | lstrip keeps a suffix, drops only the given characters, and stops at the first other one |
| Text.TrimRightFacts | generator/services.py:34 | rstrip keeps a prefix, drops only the given characters, and stops at the last other one |
| Text.Strip | generator/services.py:34 | str.strip never lengthens the string (its meaning is in TrimLeftFacts, TrimRightFacts, StripEnds and StripUnique) |
| Text.StripEnds | generator/services.py:47 | strip gives "" exactly for strings made of the stripped characters, and otherwise leaves none at either end |
| Text.StripUnique | generator/services.py:34 | any split of a string into stripped characters, a middle without them at its ends, and stripped characters determines strip's result |
| Text.StripPadded | generator/services.py:47 | strip ignores surrounding stripped characters |
| Text.Split | generator/services.py:34 | str.split(c) gives at least one part, and no part holds c |
| Text.SplitSingle | generator/services.py:34-35 | the split has one part exactly when the string holds no separator, the empty string included |
| Text.JoinSplit | generator/services.py:34 | joining the parts of a split with the separator gives the string back |
| Text.SplitLastTwo | generator/services.py:37 | the last two parts of a split with at least two parts are the last two fields of the string |
| Text.LastTwoFieldsUnique | generator/services.py:37 | a string has one pair of last two fields |
| Text.Join | generator/services.py:30 | sep.join(parts) of a non-empty list begins with the first part (its meaning is in JoinSplit, ConcatSnoc and JoinContainsAll) |
| Text.ConcatSnoc | generator/services.py:27-30 | ''.join of a list grows by exactly the appended string |
| Text.JoinContainsAll | generator/services.py:99-100 | every part of sep.join(parts) is a substring of the result |
| Text.Contains | generator/services.py:161 | `sub in s`: sub occurs at some offset of s. It has no ensures; its meaning is used in JoinContainsAll, MissingFirstChar, FixedTextsDoNotRetry and TooShortText |
| Text.MissingFirstChar | generator/services.py:161 | a string without the first character of sub does not contain sub |
| Markdown.HtmlFilter.constructor | generator/services.py:19-24 | a new filter has received no text |
| Markdown.HtmlFilter.HandleData | generator/services.py:26-27 | the chunk is appended, and the joined text grows by exactly that chunk |
| Markdown.HtmlFilter.GetData | generator/services.py:29-30 | returns the in-order concatenation of the chunks received |
| Markdown.CheckPlainText | generator/services.py:47-52 | accepts exactly when the stripped plain text has at least 50 characters, and then returns the content unchanged; otherwise raises ValidationError("Markdown validation failed: Generated content is too short or invalid") |
| Markdown.ValidateMarkdown | generator/services.py:39-52 | feeding every chunk to a fresh filter and gating on the result is CheckPlainText of the concatenated chunks |
| Markdown.AcceptedHasPlainText | generator/services.py:48-50 | accepted content has at least 50 characters of plain text |
| Markdown.BlankRejected | generator/services.py:48-49 | empty or all-whitespace plain text is rejected |
| Markdown.VerdictIgnoresPadding | generator/services.py:47 | whitespace around the plain text never changes the verdict |
| Prompt.LicenseLine | generator/services.py:91-92 | "License: " + key when a license is present and non-empty, "No license specified" exactly otherwise |
| Prompt.LanguageNames | generator/services.py:99 | the language names in the mapping's order |
| Prompt.LanguagesLine | generator/services.py:99 | no languages give the empty line |
| Prompt.LanguagesLineNamesAll | generator/services.py:99 | the language line names every language |
| Prompt.TopicsLine | generator/services.py:100 | no topics give "No topics" |
| Prompt.TopicsLineNamesAll | generator/services.py:100 | the topic line names every topic and starts with the first one |
| Prompt.PromptOf | generator/services.py:91-106 | the prompt's values for a record: the name, or "" when the 'name' key is missing; "License: " + key for a present, non-empty license and "No license specified" exactly otherwise; the record's description, stars, forks and existing README unchanged; the language and topic lines of LanguagesLine and TopicsLine, so an empty language line for no languages and "No topics" for no topics |
| Prompt.PromptOfMentions | generator/services.py:99-100 | the prompt names every language and every topic of the record |
| Prompt.WithoutLicense | generator/services.py:165-166 | dropping the license changes only the prompt's license line, which becomes "No license specified" |
| Generator.GitHubApi.GetRepoData | generator/services.py:151 | answers with the collaborator's answer for this call and logs the request |
| Generator.GeminiModel.GenerateContent | generator/services.py:122-137 | answers with the model's answer for this call and logs the prompt |
| Generator.ContentOf | generator/services.py:122-140 | an exception passes through; an empty text raises ValueError("Gemini did not return any content"); any other text is what CheckPlainText makes of it, so it is returned unchanged exactly when its stripped plain text has at least 50 characters, and otherwise the gate's ValidationError is raised |
| Generator.ReadmeService.Cached | generator/services.py:145 | `cache.get(cache_key)`: the value stored under "readme_" + url, or None. It has no ensures; GenerateReadme and CacheHit state how its value decides a hit |
| Generator.ReadmeService.GenerateReadmeContent | generator/services.py:89-140 | sends the record's prompt once and returns ContentOf the answer |
| Generator.ReadmeService.TryGenerate | generator/services.py:149-153 | the try block: its outcome and calls are those of Try |
| Generator.ReadmeService.Fallback | generator/services.py:159-172 | the except branch without the cache write: its result and prompts are those of Recover |
| Generator.ReadmeService.Finish | generator/services.py:156-172 | after the try block: the result is Conclude's, and the cache is written under "readme_" + url with timeout 86400 exactly when a README is returned |
| Generator.ReadmeService.Regenerate | generator/services.py:149-172 | after a miss: the result, calls and cache write are those of Miss |
| Generator.ReadmeService.GenerateReadme | generator/services.py:142-172 | result, calls and cache write are those of Run for the cached value under "readme_" + url; no empty README is ever cached, and every cached README passed the content gate (CacheNonEmpty and CacheValidated are preserved) |
| Exceptions.Error.Str | generator/services.py:160 | `str(e)`: a ValueError gives its message, a one-message ValidationError gives "['message']", an UnboundLocalError the Python 3.11 wording, a collaborator's error its text. It has no ensures; TooShortText and LicenseFetchFailureIsUnbound state the texts the core produces |
| Generator.CacheKey | generator/services.py:144 | the key is "readme_" followed by the URL itself, so distinct URLs have distinct keys |
| Generator.AsksForRetry | generator/services.py:161 | `"404" in error_msg and "license" in error_msg`. It has no ensures; FixedTextsDoNotRetry and TooShortText show which fixed texts do not ask, and RecoverShape and ConcludeFailure what follows when a text does |
| Generator.Conclude | generator/services.py:155-172 | the rest of generate_readme after the try block. It has no ensures; ConcludeStores, ConcludeRetriesOnce and ConcludeFailure carry its meaning |
| Generator.Miss | generator/services.py:149-172 | generate_readme after a cache miss, the try block followed by Conclude. It has no ensures; MissStoresContent, MissRetriesOnce, MissFailure and the lemmas on concrete answers (InvalidUrlFails, ValidAnswerSucceeds, TooShortAnswerFails, EmptyAnswerFails, LicenseFetchFailureIsUnbound, LicenseFallbackSucceeds) carry its meaning |
| Generator.CacheHit | generator/services.py:144-147 | a non-empty cached value is returned with no call and nothing stored; an empty or missing one is a miss |
| Generator.Try | generator/services.py:149-153 | the try block fetches exactly when extract_repo_info succeeds, and then for its owner and name; it prompts at most once; a generated README is ContentOf the model's answer to that one prompt, so it is the answer itself and passed the content gate; on a failure repo_data is bound exactly when the prompt was sent, and the prompt is built from it |
| Generator.Recover | generator/services.py:159-172 | the except branch sends at most one prompt, and returns a README only after sending it, as ContentOf the model's answer to that prompt |
| Generator.Run | generator/services.py:142-172 | generate_readme stores a README only on a miss (no value, or an empty one, cached) and fetches the repository at most once |
| Generator.RecoverShape | generator/services.py:159-172 | the except branch prompts at most once, only when the text holds "404" and "license" and repo_data is bound, with the license removed; without the marks it only wraps the text with "Failed to generate README: "; with them and repo_data unbound it fails with the fallback prefix + str() of the UnboundLocalError and sends nothing; with them and repo_data bound a failure is "Failed to generate README (fallback attempt): " + str() of the fallback's error |
| Generator.ConcludeStores | generator/services.py:156-168 | a README is stored exactly when one is returned, the returned one, and never empty |
| Generator.ConcludeStoresValidated | generator/services.py:153-168 | a README stored after the try block is the model's answer to the last prompt sent, and its stripped plain text has at least 50 characters |
| Generator.ConcludeRetriesOnce | generator/services.py:161-170 | at most one fetch and two prompts; a second prompt only after a failure whose text holds "404" and "license", and then the same prompt with "No license specified" |
| Generator.ConcludeFailure | generator/services.py:159-172 | every failure comes from a failed try block; without the retry marks it is "Failed to generate README: " + the text, with no further call and nothing stored; with them a failure carries the fallback prefix |
| Generator.MissStoresContent | generator/services.py:156-168 | after a miss a README is stored exactly when one is returned, the returned one, and never empty |
| Generator.MissStoresValidated | generator/services.py:149-168 | after a miss a stored README is the model's answer to the last prompt sent, and its stripped plain text has at least 50 characters |
| Generator.MissRetriesOnce | generator/services.py:161-170 | after a miss: at most one fetch and two prompts, the second only as the license fallback |
| Generator.MissFailure | generator/services.py:159-172 | after a miss: the failure rules of ConcludeFailure, stated on the whole call |
| Generator.FixedTextsDoNotRetry | generator/services.py:161 | neither "Invalid GitHub URL" nor "Gemini did not return any content" asks for the fallback |
| Generator.InvalidUrlFails | generator/services.py:150-172 | a URL that extract_repo_info rejects fails with "Failed to generate README: Invalid GitHub URL", with no call and nothing stored |
| Generator.TryAfterFetch | generator/services.py:151-153 | once the record is fetched, the try block ends with what the model's answer to the named record's prompt makes |
| Generator.ValidAnswerSucceeds | generator/services.py:149-158 | a first answer whose stripped plain text has at least 50 characters is returned and stored, after one fetch and one prompt |
| Generator.TooShortAnswerFails | generator/services.py:149-172 | a first answer whose stripped plain text is too short fails with "Failed to generate README: ['Markdown validation failed: Generated content is too short or invalid']", after one prompt, with no retry and nothing stored |
| Generator.TooShortText | generator/services.py:49-52 | str() of the gate's ValidationError is "['Markdown validation failed: Generated content is too short or invalid']", which holds no "404" and so never asks for the fallback |
| Generator.EmptyAnswerFails | generator/services.py:137-172 | an empty answer fails with "Failed to generate README: Gemini did not return any content", after one prompt, with no retry and nothing stored |
| Generator.FetchFailureFails | generator/services.py:151-172 | a fetch failure whose text does not hold both "404" and "license" fails with "Failed to generate README: " + str(e), with no prompt and nothing stored |
| Generator.LicenseFetchFailureIsUnbound | generator/services.py:151-170 | a fetch failure whose text holds "404" and "license" fails in the fallback on the unbound repo_data, with no prompt and nothing stored |
| Generator.LicenseFallbackSucceeds | generator/services.py:161-168 | a first answer failing with "404" and "license" leads to one more prompt without the license, whose valid answer is returned and stored |

## Left out

- `get_repo_data` (network calls through PyGithub) is an oracle. The model keeps its answer and the record's fields, not how they are obtained.
- The Gemini call and its safety and generation settings are an oracle that returns a text or an exception.
- Markdown rendering and HTML parsing are outside libraries. `dataChunks` is an uninterpreted function from the content to the text chunks the parser hands to `handle_data`, in order. Exceptions raised inside those libraries, which `validate_markdown` would also wrap, are not modelled.
- The fixed prose of the prompt template is not modelled. A prompt is the tuple of the values it interpolates. Stars and forks are kept as integers and not formatted as text.
- Calls of generate_readme are modelled one at a time: each call has the cache to itself from `cache.get` to `cache.set`. Concurrent requests that interleave on the shared cache, where another request may store or evict the same key in between and the last write wins, are not modelled.
- Cache expiry after the timeout, eviction, and failures of `cache.set` are not modelled. A stored entry records its timeout of 86400 seconds.
- `load_dotenv`, environment variables and the model's configuration are not modelled.
- generator/views.py and generator/urls.py (request handling, messages, the database) are not part of this model.
- `URLField`'s own URL validation and its whitespace stripping, which run before `clean_repo_url`, are not modelled.
- The in-place change `repo_data['license'] = None` is modelled as a new record with the license removed. Nothing reads the old dictionary afterwards.
- Exceptions.Error.Str renders every one-message ValidationError as "['" + message + "']". Python's repr would use double quotes or escapes for a message holding a quote, a backslash or a non-printable character; the only ValidationError the core raises has none of these.
- Text.TrimLeft states only a length bound in its own contract. Its other facts are in the lemma TrimLeftFacts.
- Text.TrimRight states only a length bound in its own contract. Its other facts are in the lemma TrimRightFacts.
- Text.Strip states only a length bound in its own contract. Its other facts are in the lemmas StripEnds and StripUnique.
- Text.Join states only that the result begins with the first part. The round trip with Split is in JoinSplit, growth by one part in ConcatSnoc, and containment of every part in JoinContainsAll.
- Prompt.LanguagesLine states only the empty case in its own contract. That it names every language is in LanguagesLineNamesAll. That the line is exactly the ", "-join of the names in order is not stated as a property.
- Prompt.TopicsLine states only the "No topics" case in its own contract. That it names every topic and starts with the first is in TopicsLineNamesAll. That the line is exactly the ", "-join of the topics is not stated as a property.
- Forms.IsRepoUrl states only the scheme of an accepted URL in its own contract. The full characterisation is in IsRepoUrlMatchesPattern.
