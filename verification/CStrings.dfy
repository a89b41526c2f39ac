/** C strings as the user programs see them: the text without its terminating NUL. */
module CStrings {
  const NUL: char := '\0'

  predicate CString(s: string)
  {
    forall i | 0 <= i < |s| :: s[i] != NUL
  }

  /** *s, with the terminating NUL at the end. */
  function At(s: string, i: nat): char
  {
    if i < |s| then s[i] else NUL
  }
}
