/**
 * The form validation of the property's descriptor: the inline check of the
 * user id entered in the job configuration form.
 */
module DescriptorImpl {
  import opened Wrappers

  /** The message a failed check shows, looked up in the message catalogue by the host. */
  datatype MessageKey = UserIdError

  /** The host's `FormValidation` outcomes that the checks return. */
  datatype FormValidation = Ok | Error(message: MessageKey)

  /** One item of a regular-expression character class. */
  datatype ClassItem = Range(lo: char, hi: char) | Literal(c: char)

  /**
   * The class `[A-Za-z0-9-_@.]` as Java's regex parser reads it: three
   * ranges, then `-`, which cannot start a range right after `0-9` and so
   * is a literal, then `_`, `@` and `.`.
   */
  const UserIdClass: seq<ClassItem> :=
    [Range('A', 'Z'), Range('a', 'z'), Range('0', '9'), Literal('-'), Literal('_'), Literal('@'), Literal('.')]

  predicate ItemMatches(item: ClassItem, c: char)
  {
    match item
    case Range(lo, hi) => lo <= c <= hi
    case Literal(d) => c == d
  }

  /** `c` is matched by some item of the class. */
  predicate InClass(cls: seq<ClassItem>, c: char)
  {
    exists k :: 0 <= k < |cls| && ItemMatches(cls[k], c)
  }

  /** `s.matches("[cls]+")`: the whole of `s`, one class character after another, at least one. */
  function MatchesPlus(cls: seq<ClassItem>, s: string): (r: bool)
    ensures r <==> |s| > 0 && forall i :: 0 <= i < |s| ==> InClass(cls, s[i])
    decreases |s|
  {
    assert forall i :: 1 <= i < |s| ==> s[i] == s[1..][i - 1];
    |s| > 0 && InClass(cls, s[0]) && (|s| == 1 || MatchesPlus(cls, s[1..]))
  }

  /** The characters a Backlog user id may hold, listed one by one. */
  predicate UserIdChar(c: char)
  {
    ('A' <= c <= 'Z') || ('a' <= c <= 'z') || ('0' <= c <= '9') || c == '-' || c == '_' || c == '@' || c == '.'
  }

  /** The class as Java reads it holds exactly the characters `UserIdChar` lists. */
  lemma UserIdClassChars(c: char)
    ensures InClass(UserIdClass, c) <==> UserIdChar(c)
  {
    if UserIdChar(c) {
      if 'A' <= c <= 'Z' { assert ItemMatches(UserIdClass[0], c); }
      else if 'a' <= c <= 'z' { assert ItemMatches(UserIdClass[1], c); }
      else if '0' <= c <= '9' { assert ItemMatches(UserIdClass[2], c); }
      else if c == '-' { assert ItemMatches(UserIdClass[3], c); }
      else if c == '_' { assert ItemMatches(UserIdClass[4], c); }
      else if c == '@' { assert ItemMatches(UserIdClass[5], c); }
      else { assert ItemMatches(UserIdClass[6], c); }
    }
  }

  /**
   * `doCheckUserId`: a null or empty id, or one that matches the class
   * entirely, is accepted; anything else gets the user-id error.
   */
  function CheckUserId(userId: Option<string>): (r: FormValidation)
    ensures r == Ok <==>
      userId.None? || forall i :: 0 <= i < |userId.value| ==> UserIdChar(userId.value[i])
    ensures r != Ok ==> r == Error(UserIdError)
  {
    if userId.Some? then
      UserIdStringChars(userId.value);
      if |userId.value| == 0 || MatchesPlus(UserIdClass, userId.value) then Ok
      else Error(UserIdError)
    else Ok
  }

  /** Every character of `s` is in the class exactly when every one is a user-id character. */
  lemma UserIdStringChars(s: string)
    ensures (forall i :: 0 <= i < |s| ==> InClass(UserIdClass, s[i])) <==>
      (forall i :: 0 <= i < |s| ==> UserIdChar(s[i]))
  {
    forall i | 0 <= i < |s| ensures InClass(UserIdClass, s[i]) <==> UserIdChar(s[i]) {
      UserIdClassChars(s[i]);
    }
  }

  /** An e-mail-like id is accepted; one with `!` is not. */
  lemma CheckUserIdExamples()
    ensures CheckUserId(Some("bob@example.com")) == Ok
    ensures CheckUserId(Some("bob!invalid")) == Error(UserIdError)
  {
    var bad := "bob!invalid";
    assert !UserIdChar(bad[3]);
  }
}
