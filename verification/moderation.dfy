/** The pattern filter (`moderateContent`, identical in api/bot.js and
    api/overpoweredbot.js): a file map is flagged when some file contains
    one of three fixed literals, matched case-sensitively as substrings. */
module Moderation {
  import opened Text

  /** File name to file content. */
  type Files = map<string, string>

  const HarmfulPatterns: seq<string> := ["<script>alert", "eval(", "malicious"]

  /** Specification: `content` contains a denylisted pattern somewhere. */
  ghost predicate Harmful(content: string) {
    exists p :: p in HarmfulPatterns && IsSubstring(p, content)
  }

  /** Specification: some file of the map is harmful. */
  ghost predicate AnyFileHarmful(files: Files) {
    exists name :: name in files && Harmful(files[name])
  }

  /** The inner loop of `moderateContent`: tries each pattern on one file. */
  function ContainsHarmfulPattern(content: string): (found: bool)
    ensures found <==> Harmful(content)
  {
    exists k | 0 <= k < |HarmfulPatterns| :: Includes(content, HarmfulPatterns[k])
  }

  /** `moderateContent(files)`: true iff some file contains some pattern.
      An empty map is never flagged. */
  function ModerateContent(files: Files): (flagged: bool)
    ensures flagged <==> AnyFileHarmful(files)
    ensures files == map[] ==> !flagged
  {
    exists name | name in files :: ContainsHarmfulPattern(files[name])
  }

  /** A file holding a harmful substring makes the whole map flagged. */
  lemma {:induction false} HarmfulFileFlags(files: Files, name: string, part: string)
    requires name in files && Harmful(part) && IsSubstring(part, files[name])
    ensures ModerateContent(files)
  {
    var p :| p in HarmfulPatterns && IsSubstring(p, part);
    SubstringTransitive(p, part, files[name]);
  }

  /** Appending `m` to a file cannot change its verdict when `m` starts
      with a character no pattern uses and lacks both 'c' and '(' (every
      pattern contains one of them). */
  lemma HarmfulAfterAppend(content: string, m: string)
    requires |m| >= 1 && forall p :: p in HarmfulPatterns ==> m[0] !in p
    requires 'c' !in m && '(' !in m
    ensures Harmful(content + m) <==> Harmful(content)
  {
    NoOccurrenceAcrossSeam(HarmfulPatterns[0], content, m, 'c');
    NoOccurrenceAcrossSeam(HarmfulPatterns[1], content, m, '(');
    NoOccurrenceAcrossSeam(HarmfulPatterns[2], content, m, 'c');
  }
}
