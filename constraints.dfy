/**
 * The two declarative Bean Validation constraints the project uses on strings,
 * with the meaning their reference implementation gives them:
 * `@NotBlank` rejects `null` and any string that `String.trim()` empties;
 * `@Size(max = n)` accepts `null` and any string of at most `n` characters.
 */
module Constraints {
  import opened Lang

  /** `String.trim()` drops every leading and trailing character at or below U+0020. */
  function TrimStart(s: string): (t: string)
    decreases |s|
  {
    if |s| > 0 && s[0] <= ' ' then TrimStart(s[1..]) else s
  }

  function TrimEnd(s: string): (t: string)
    decreases |s|
  {
    if |s| > 0 && s[|s| - 1] <= ' ' then TrimEnd(s[..|s| - 1]) else s
  }

  function Trim(s: string): string {
    TrimEnd(TrimStart(s))
  }

  /** Some character survives trimming. */
  predicate HasVisibleChar(s: string) {
    exists i :: 0 <= i < |s| && s[i] > ' '
  }

  /** `@NotBlank`: not null, and not empty once trimmed. */
  predicate NotBlank(s: Option<string>) {
    s.Some? && |Trim(s.value)| > 0
  }

  /** `@Size(max = max)`: null, or at most `max` characters long. */
  predicate SizeAtMost(s: Option<string>, max: nat) {
    s.None? || |s.value| <= max
  }

  lemma {:induction false} TrimStartShape(s: string)
    ensures TrimStart(s) == [] <==> forall i :: 0 <= i < |s| ==> s[i] <= ' '
    ensures TrimStart(s) != [] ==> TrimStart(s)[0] > ' ' && |TrimStart(s)| <= |s|
  {
    if |s| > 0 && s[0] <= ' ' {
      TrimStartShape(s[1..]);
      assert forall i :: 1 <= i < |s| ==> s[i] == s[1..][i - 1];
    }
  }

  lemma {:induction false} TrimEndKeepsVisibleHead(s: string)
    requires |s| > 0 && s[0] > ' '
    ensures |TrimEnd(s)| > 0
  {
    if |s| > 0 && s[|s| - 1] <= ' ' {
      TrimEndKeepsVisibleHead(s[..|s| - 1]);
    }
  }

  /** A string is blank in the `@NotBlank` sense exactly when it has no character above U+0020. */
  lemma NotBlankIffVisibleChar(s: string)
    ensures NotBlank(Some(s)) <==> HasVisibleChar(s)
  {
    TrimStartShape(s);
    if TrimStart(s) != [] {
      TrimEndKeepsVisibleHead(TrimStart(s));
    }
  }

  /** A non-blank string is non-empty. */
  lemma NotBlankIsNonEmpty(s: Option<string>)
    requires NotBlank(s)
    ensures |s.value| > 0
  {
  }
}
