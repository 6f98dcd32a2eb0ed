/**
  The domain part of an e-mail address as the routes compute it:
  `const [, domain] = email.split("@")`.
 */
module Email {
  import opened Schema

  /** The text of `s` before its first '@' (all of `s` when there is none). */
  function UpToAt(s: string): (r: string)
    ensures '@' !in r
    ensures |r| <= |s| && r == s[..|r|]
    ensures |r| < |s| ==> s[|r|] == '@'
  {
    if |s| == 0 || s[0] == '@' then [] else [s[0]] + UpToAt(s[1..])
  }

  /** The position of the first '@' in `s`, or `|s|` when there is none. */
  function FirstAt(s: string): (i: nat)
    ensures i <= |s| && '@' !in s[..i]
    ensures i < |s| ==> s[i] == '@'
  {
    if |s| == 0 || s[0] == '@' then 0
    else
      var j := FirstAt(s[1..]);
      assert s[..j + 1] == [s[0]] + s[1..][..j];
      j + 1
  }

  /** The second element of `email.split("@")`: the text between the first '@' and
      the next one (or the end); None (`undefined`) when there is no '@'. */
  function DomainOf(email: string): (r: Option<string>)
    ensures r.None? <==> '@' !in email
    ensures r.Some? ==> '@' !in r.value
    ensures r.Some? ==> exists i :: 0 <= i < |email| && email[i] == '@' && '@' !in email[..i] && r.value == UpToAt(email[i + 1..])
  {
    var i := FirstAt(email);
    if i == |email| then
      assert email[..i] == email;
      None
    else
      Some(UpToAt(email[i + 1..]))
  }

  /** Splitting `local@domain` (possibly followed by more '@'-separated text) gives back `domain`. */
  lemma DomainOfJoin(local: string, domain: string, rest: string)
    requires '@' !in local && '@' !in domain
    requires rest == [] || rest[0] == '@'
    ensures DomainOf(local + "@" + domain + rest) == Some(domain)
  {
    var email := local + "@" + domain + rest;
    var i := FirstAt(email);
    assert email[|local|] == '@';
    assert i == |local|;
    assert email[i + 1..] == domain + rest;
    UpToAtJoin(domain, rest);
  }

  lemma {:induction false} UpToAtJoin(domain: string, rest: string)
    requires '@' !in domain
    requires rest == [] || rest[0] == '@'
    ensures UpToAt(domain + rest) == domain
  {
    if |domain| == 0 {
      assert domain + rest == rest;
    } else {
      assert (domain + rest)[0] == domain[0];
      assert (domain + rest)[1..] == domain[1..] + rest;
      UpToAtJoin(domain[1..], rest);
    }
  }
}
