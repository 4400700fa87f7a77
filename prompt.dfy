/**
 * The data-dependent parts of the prompt that generate_readme_content sends to the
 * model: the repository record, the license line, the language list and the topic
 * list. The fixed wording around them is not modelled; a prompt is the tuple of the
 * values it interpolates.
 */
module Prompt {
  import opened Wrappers
  import opened Text

  const NO_LICENSE := "No license specified"
  const LICENSE_LABEL := "License: "
  const NO_TOPICS := "No topics"
  const LIST_SEPARATOR := ", "

  /** One entry of the languages mapping (name to byte count), in the mapping's order. */
  datatype Language = Language(name: string, bytes: nat)

  /** The repo_data dictionary: what get_repo_data fills in, and the 'name' key that
      generate_readme adds afterwards (absent until then). */
  datatype RepoData = RepoData(
    name: Option<string>,
    description: string,
    languages: seq<Language>,
    topics: seq<string>,
    license: Option<string>,
    stars: int,
    forks: int,
    watchers: int,
    defaultBranch: string,
    existingReadme: string)

  /** The values the prompt template interpolates, in its order. */
  datatype PromptFields = PromptFields(
    name: string,
    description: string,
    languages: string,
    topics: string,
    license: string,
    stars: int,
    forks: int,
    existingReadme: string)

  /** The license line: the label and the license key when one is present and non-empty,
      the fixed fallback otherwise. */
  function LicenseLine(license: Option<string>): (line: string)
    ensures line == NO_LICENSE <==> license.None? || license.value == ""
    ensures license.Some? && license.value != "" ==> line == LICENSE_LABEL + license.value
  {
    if license.Some? && license.value != "" then
      assert (LICENSE_LABEL + license.value)[0] == 'L';
      LICENSE_LABEL + license.value
    else NO_LICENSE
  }

  function LanguageNames(languages: seq<Language>): (names: seq<string>)
    ensures |names| == |languages|
    ensures forall k :: 0 <= k < |languages| ==> names[k] == languages[k].name
  {
    seq(|languages|, k requires 0 <= k < |languages| => languages[k].name)
  }

  /** ', '.join of the language names; empty for no languages. */
  function LanguagesLine(languages: seq<Language>): (line: string)
    ensures languages == [] ==> line == ""
  {
    Join(LanguageNames(languages), LIST_SEPARATOR)
  }

  /** The language line names every language. */
  lemma LanguagesLineNamesAll(languages: seq<Language>)
    ensures forall k :: 0 <= k < |languages| ==> Contains(LanguagesLine(languages), languages[k].name)
  {
    var names := LanguageNames(languages);
    JoinContainsAll(names, LIST_SEPARATOR);
    assert forall k :: 0 <= k < |languages| ==> names[k] == languages[k].name;
  }

  /** ', '.join of the topics, or the fixed fallback when there are none. */
  function TopicsLine(topics: seq<string>): (line: string)
    ensures topics == [] ==> line == NO_TOPICS
  {
    if topics == [] then NO_TOPICS else Join(topics, LIST_SEPARATOR)
  }

  /** A topic line names every topic and starts with the first. */
  lemma TopicsLineNamesAll(topics: seq<string>)
    ensures forall k :: 0 <= k < |topics| ==> Contains(TopicsLine(topics), topics[k])
    ensures topics != [] ==> StartsWith(TopicsLine(topics), topics[0])
  {
    if topics != [] {
      JoinContainsAll(topics, LIST_SEPARATOR);
      if |topics| > 1 {
        JoinCons(topics[0], topics[1..], LIST_SEPARATOR);
        assert [topics[0]] + topics[1..] == topics;
        var line := Join(topics, LIST_SEPARATOR);
        assert line[..|topics[0]|] == topics[0];
      }
    }
  }

  /** The prompt for a repository record; dict.get defaults the missing 'name' to "". */
  function PromptOf(data: RepoData): (p: PromptFields)
    ensures data.name.None? ==> p.name == ""
    ensures data.name.Some? ==> p.name == data.name.value
    ensures p.license == NO_LICENSE <==> data.license.None? || data.license.value == ""
    ensures data.license.Some? && data.license.value != "" ==> p.license == LICENSE_LABEL + data.license.value
    ensures p.description == data.description && p.stars == data.stars && p.forks == data.forks
    ensures p.existingReadme == data.existingReadme
    ensures p.languages == LanguagesLine(data.languages) && p.topics == TopicsLine(data.topics)
    ensures data.languages == [] ==> p.languages == ""
    ensures data.topics == [] ==> p.topics == NO_TOPICS
  {
    PromptFields(
      if data.name.Some? then data.name.value else "",
      data.description,
      LanguagesLine(data.languages),
      TopicsLine(data.topics),
      LicenseLine(data.license),
      data.stars,
      data.forks,
      data.existingReadme)
  }

  /** The prompt names every language and every topic of the record. */
  lemma PromptOfMentions(data: RepoData)
    ensures forall k :: 0 <= k < |data.languages| ==> Contains(PromptOf(data).languages, data.languages[k].name)
    ensures forall k :: 0 <= k < |data.topics| ==> Contains(PromptOf(data).topics, data.topics[k])
  {
    LanguagesLineNamesAll(data.languages);
    TopicsLineNamesAll(data.topics);
  }

  /** Forgetting the license changes the prompt in its license line alone, which then
      reads "No license specified". */
  lemma WithoutLicense(data: RepoData)
    ensures PromptOf(data.(license := None)) == PromptOf(data).(license := NO_LICENSE)
  {
  }
}
