/** The decisions of the authenticated shell, `src/components/layout/AppLayout.tsx`:
    the redirect to the login page and the avatar initials. */
module AppLayout {
  import opened Wrappers
  import opened Text
  import MockAuth

  /** The shell sends the visitor to the login page once loading is over and
      nobody is signed in; while loading it never does. */
  predicate RedirectsToLogin(loading: bool, st: MockAuth.AuthState) {
    !loading && !MockAuth.IsAuthenticated(st)
  }

  /** After signing out, the shell redirects (unless still loading). */
  lemma SignedOutIsRedirected(st: MockAuth.AuthState)
    ensures RedirectsToLogin(false, MockAuth.SignOut(st))
    ensures !RedirectsToLogin(true, MockAuth.SignOut(st))
  {
  }

  /** On mount nobody is signed in yet: while the stored session is being
      read the shell does not redirect, and once it is read the shell
      redirects exactly when no session was stored. */
  lemma MountRedirect(st: MockAuth.AuthState)
    requires st.user.None?
    ensures !RedirectsToLogin(true, st)
    ensures RedirectsToLogin(false, MockAuth.RestoreSession(st)) <==> st.session.None?
  {
  }

  /** After a successful sign-in, the shell does not redirect. */
  lemma SignedInStays(st: MockAuth.AuthState, email: string, password: string, loading: bool)
    requires MockAuth.SignIn(st, email, password).1.Ok?
    ensures !RedirectsToLogin(loading, MockAuth.SignIn(st, email, password).0)
  {
  }

  /** The first character of `s`, unless that is a space: the first
      character of `s.split(' ')[0]`. */
  function LeadLetter(s: string): string {
    if |s| == 0 || s[0] == ' ' then "" else [s[0]]
  }

  /** `j` is the position of the last space in `s`. */
  predicate LastSpaceAt(s: string, j: int) {
    0 <= j < |s| && s[j] == ' ' && ' ' !in s[j + 1..]
  }

  /** `getUserInitials`: "U" for an absent or empty name; otherwise the
      upper-cased first character of the first space-separated part, followed,
      when there are several parts, by that of the last part. At most two
      characters. */
  function Initials(name: Option<string>): (r: string)
    ensures !Truthy(name) ==> r == "U"
    ensures |r| <= 2
  {
    if !Truthy(name) then "U"
    else
      var parts := SplitOn(name.value, ' ');
      if |parts| == 1 then Upper(FirstChar(parts[0]))
      else Upper(FirstChar(parts[0]) + FirstChar(parts[|parts| - 1]))
  }

  /** A non-empty name without spaces gives its upper-cased first character. */
  lemma {:induction false} InitialsWithoutSpace(name: string)
    requires name != "" && ' ' !in name
    ensures Initials(Some(name)) == [UpperChar(name[0])]
  {
    var parts := SplitOn(name, ' ');
    JoinHasSeparator(parts, ' ', name);
    assert Join(parts, " ") == parts[0];
  }

  /** A string has at most one last space. */
  lemma LastSpaceUnique(s: string, j: int, k: int)
    requires LastSpaceAt(s, j) && LastSpaceAt(s, k)
    ensures j == k
  {
  }

  /** A space-free prefix that is followed by a space starts with the
      name's lead letter, if it has one. */
  lemma FirstPieceLead(name: string, first: string)
    requires |first| < |name| && name[..|first|] == first && name[|first|] == ' ' && ' ' !in first
    ensures FirstChar(first) == LeadLetter(name)
  {
    if |first| > 0 {
      assert name[0] == first[0];
    }
  }

  /** A space-free suffix that follows a space is what follows the last
      space. */
  lemma LastPieceAfterSpace(name: string, last: string, j: int)
    requires LastSpaceAt(name, j)
    requires |last| < |name| && name[|name| - |last|..] == last && name[|name| - |last| - 1] == ' ' && ' ' !in last
    ensures last == name[j + 1..]
  {
    var k := |name| - |last| - 1;
    assert name[k + 1..] == last;
    LastSpaceUnique(name, j, k);
  }

  /** Space-free parts joined by spaces into a name whose last space is at
      `j`: there are several, the first starts the name, and the last is what
      follows position `j`. */
  lemma {:induction false} SpacedNameParts(name: string, parts: seq<string>, j: int)
    requires |parts| >= 1 && Join(parts, " ") == name
    requires forall i :: 0 <= i < |parts| ==> ' ' !in parts[i]
    requires LastSpaceAt(name, j)
    ensures |parts| >= 2 && FirstChar(parts[0]) == LeadLetter(name) && parts[|parts| - 1] == name[j + 1..]
  {
    assert ' ' in name by {
      assert name[j] == ' ';
    }
    JoinHasSeparator(parts, ' ', name);
    JoinStartsWithFirst(parts, ' ', name);
    JoinEndsWithLast(parts, ' ', name);
    FirstPieceLead(name, parts[0]);
    LastPieceAfterSpace(name, parts[|parts| - 1], j);
  }

  /** A name whose last space is at `j` gives the upper-cased first
      character (unless it is the space) and the character after position
      `j` (if any). */
  lemma {:induction false} InitialsWithSpace(name: string, j: int)
    requires LastSpaceAt(name, j)
    ensures Initials(Some(name)) == Upper(LeadLetter(name) + FirstChar(name[j + 1..]))
  {
    var parts := SplitOn(name, ' ');
    SpacedNameParts(name, parts, j);
    var picked := FirstChar(parts[0]) + FirstChar(parts[|parts| - 1]);
    assert Truthy(Some(name)) && |parts| != 1;
    assert Initials(Some(name)) == Upper(picked);
    assert picked == LeadLetter(name) + FirstChar(name[j + 1..]);
  }

  /** Initials of a two-word name are the upper-cased first letters of the
      two words. */
  lemma TwoWordInitials(first: string, last: string)
    requires first != "" && last != "" && ' ' !in first && ' ' !in last
    ensures Initials(Some(first + " " + last)) == [UpperChar(first[0]), UpperChar(last[0])]
  {
    var n := first + " " + last;
    assert n[|first|] == ' ';
    assert n[|first| + 1..] == last;
    InitialsWithSpace(n, |first|);
  }
}
