# Backlog project property, modelled in Dafny

The Backlog plugin attaches a `BacklogProjectProperty` to a build job. The
property is immutable. It holds the URL of a Backlog space or project, a user
id and two secrets (password and API key). Its constructor normalises the URL.
Two values are derived from the stored URL: the space URL (`getSpaceURL`) and
the project key (`getProject`). The property's descriptor checks the user id
typed into the configuration form (`doCheckUserId`).

This project models that logic as pure functions over a datatype, because the
Java class only assigns `final` fields once and computes everything else with
conditional expressions:

- `Wrappers.dfy`: `Option`, which stands for Java's nullable references (`None` is `null`).
- `JavaStrings.dfy`: `String.indexOf`, `contains` and `endsWith`. `IndexOf` is
  specified by what it finds, the first occurrence, and `Contains` is defined from it.
- `BacklogProjectProperty.dfy`: the property record, the constructor `New`
  with its normalisation `Normalize`, `SpaceURL`, `Project`, and the lemmas
  about them.
- `DescriptorImpl.dfy`: `CheckUserId`. The character class
  `[A-Za-z0-9-_@.]` is written as Java's regex parser reads it, with the `-`
  after `0-9` a literal. A whole-string `+` matcher is proved equal to the
  rule "every character is one of the listed ones".

## Model

| member | source | states |
|---|---|---|
| `JavaStrings.IndexOf` | src/main/java/hudson/plugins/backlog/BacklogProjectProperty.java:79 | the result is an index where the pattern occurs and no earlier index is one; `None` (Java's -1) only when it occurs nowhere |
| `JavaStrings.IndexOfFirst` | src/main/java/hudson/plugins/backlog/BacklogProjectProperty.java:94 | an occurrence with no earlier occurrence is exactly the index `indexOf` returns |
| `JavaStrings.Contains` | src/main/java/hudson/plugins/backlog/BacklogProjectProperty.java:49 | `contains` holds exactly when the pattern occurs at some index |
| `JavaStrings.EndsWith` | src/main/java/hudson/plugins/backlog/BacklogProjectProperty.java:51 | `endsWith` holds exactly when the suffix fits and the string's last characters, as many as the suffix has, are the suffix; for a one-character suffix, when the last character is it |
| `JavaStrings.NotContains` | src/main/java/hudson/plugins/backlog/BacklogProjectProperty.java:90 | a string where no index starts the pattern does not contain it |
| `BacklogProjectProperty.IsNotEmpty` | src/main/java/hudson/plugins/backlog/BacklogProjectProperty.java:48 | `StringUtils.isNotEmpty` holds exactly when the string is neither null nor `""` |
| `BacklogProjectProperty.Normalize` | src/main/java/hudson/plugins/backlog/BacklogProjectProperty.java:47-58 | the stored URL is absent exactly when the input is null or empty; a stored URL is non-empty and contains `/projects/` or ends in `/`; it extends the input by at most one character |
| `BacklogProjectProperty.New` | src/main/java/hudson/plugins/backlog/BacklogProjectProperty.java:43-63 | every constructed property satisfies the stored-URL invariant; the URL is the normalised input and the user id and secrets are kept verbatim |
| `BacklogProjectProperty.SpaceURL` | src/main/java/hudson/plugins/backlog/BacklogProjectProperty.java:73-84 | the space URL is absent exactly when the stored URL is, and otherwise is a prefix of it |
| `BacklogProjectProperty.Project` | src/main/java/hudson/plugins/backlog/BacklogProjectProperty.java:86-95 | the key exists exactly when the stored URL contains `/projects/`, and it is a suffix of the stored URL that leaves room for the segment |
| `BacklogProjectProperty.AbsentUrl` | src/main/java/hudson/plugins/backlog/BacklogProjectProperty.java:48 | a null or empty URL is stored as absent, and then both the space URL and the project key are absent |
| `BacklogProjectProperty.NormalizeKeeps` | src/main/java/hudson/plugins/backlog/BacklogProjectProperty.java:49-52 | a non-empty URL that contains `/projects/` or ends in `/` is stored unchanged |
| `BacklogProjectProperty.NormalizeAppends` | src/main/java/hudson/plugins/backlog/BacklogProjectProperty.java:53-54 | any other non-empty URL is stored with one `/` appended |
| `BacklogProjectProperty.NormalizeIdempotent` | src/main/java/hudson/plugins/backlog/BacklogProjectProperty.java:47-58 | normalising a normalised URL gives the same URL |
| `BacklogProjectProperty.SpaceURLEndsWithSlash` | src/main/java/hudson/plugins/backlog/BacklogProjectProperty.java:78-82 | for a constructed property with a URL, the space URL ends in `/` |
| `BacklogProjectProperty.NoSegmentWholeURL` | src/main/java/hudson/plugins/backlog/BacklogProjectProperty.java:80-81 | without `/projects/` the space URL is the whole stored URL and the project key is absent |
| `BacklogProjectProperty.SplitAtFirstOccurrence` | src/main/java/hudson/plugins/backlog/BacklogProjectProperty.java:79 | both derived values split at the first `/projects/`: the space URL's last slash starts an occurrence, none starts earlier, and space URL, segment and key cover the stored URL |
| `BacklogProjectProperty.SplitRoundTrip` | src/main/java/hudson/plugins/backlog/BacklogProjectProperty.java:94 | whenever there is a project key `k`, the space URL followed by `projects/` and `k` is the stored URL |
| `BacklogProjectProperty.EmptyProjectKey` | src/main/java/hudson/plugins/backlog/BacklogProjectProperty.java:90-94 | a stored URL whose first `/projects/` ends it has the empty key, not an absent one |
| `BacklogProjectProperty.ComposedProjectURL` | src/main/java/hudson/plugins/backlog/BacklogProjectProperty.java:47-95 | a space without the segment, then `/projects/` and any key, is stored as is and splits back into the space with its `/` and the key |
| `BacklogProjectProperty.ComposedSpaceURL` | src/main/java/hudson/plugins/backlog/BacklogProjectProperty.java:47-95 | a space URL without a trailing `/`, such that even with `/` appended it contains no `/projects/` (so not one ending in `/projects`), is stored with `/` appended, is its own space URL, and has no key |
| `BacklogProjectProperty.SpaceOnlyExample` | src/main/java/hudson/plugins/backlog/BacklogProjectProperty.java:53-54 | `https://example.backlog.jp` is stored and served as its space URL with a `/` appended, with no project |
| `BacklogProjectProperty.ProjectExample` | src/main/java/hudson/plugins/backlog/BacklogProjectProperty.java:79 | `https://example.backlog.jp/projects/ABC` is stored unchanged, with space URL `https://example.backlog.jp/` and key `ABC` |
| `BacklogProjectProperty.EmptyKeyExample` | src/main/java/hudson/plugins/backlog/BacklogProjectProperty.java:94 | `https://example.backlog.jp/projects/` has the empty key |
| `BacklogProjectProperty.AppendCompletesSegmentExample` | src/main/java/hudson/plugins/backlog/BacklogProjectProperty.java:49-54 | `https://example.backlog.jp/projects` gets a `/` appended, which completes the segment: the stored URL then has the empty key |
| `DescriptorImpl.CheckUserId` | src/main/java/hudson/plugins/backlog/BacklogProjectProperty.java:131-138 | the check returns ok exactly when the id is null, empty or made only of A-Z, a-z, 0-9, `-`, `_`, `@` and `.`; otherwise it returns the user-id error |
| `DescriptorImpl.UserIdClassChars` | src/main/java/hudson/plugins/backlog/BacklogProjectProperty.java:132 | the class `[A-Za-z0-9-_@.]` (the constant `UserIdClass`: three ranges, then `-` read as a literal, `_`, `@`, `.`) holds exactly A-Z, a-z, 0-9, `-`, `_`, `@` and `.` |
| `DescriptorImpl.MatchesPlus` | src/main/java/hudson/plugins/backlog/BacklogProjectProperty.java:132 | `matches("[class]+")` holds exactly for non-empty strings whose every character the class matches |
| `DescriptorImpl.CheckUserIdExamples` | src/main/java/hudson/plugins/backlog/BacklogProjectProperty.java:132-137 | `bob@example.com` is accepted and `bob!invalid` is rejected |

## Left out

- `doCheckUrl` (BacklogProjectProperty.java:120-129): its result is whatever `java.net.URL` parsing decides, and that grammar is not part of this model.
- `Secret.fromString`, `getPassword` and `getApiKey`: the secrets are opaque `Secret` values holding the constructor's argument verbatim. The host's encryption and its handling of null are not modelled.
- `getJobAction`, `BacklogLinkAction` and `Factory.createFor`: host UI and extension plumbing. The multi-branch test in `createFor` is a host type test.
- The `DescriptorImpl` constructor and `load()`, `isApplicable`, `getDisplayName` and `newInstance`: host persistence, class-hierarchy checks, localisation and JSON form binding. In particular, the rule that an empty form creates no property lives in `newInstance` and is not modelled.
- The localised text of the user-id error: the model returns a message key, and the host's message catalogue supplies the text.
- Java strings are UTF-16 code units; here they are `seq<char>`, whose elements are Unicode scalar values. A Java string holding a lone surrogate has no counterpart, and `IndexOf` counts code points, not UTF-16 units. Only substrings leave this core, so index values are never observed outside it. Only `indexOf`, `contains`, `endsWith`, `substring` and a single-class `matches` are modelled, not Java's general regex engine.
