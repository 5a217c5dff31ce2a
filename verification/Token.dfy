/** The per-process capability that authorises the plugin's own inspect callbacks. */
module Token {
  import opened Alphabet

  const INTERNAL_HEADER := "X-Dockauthz-Internal-Token"
  const REGISTRY_AUTH := "X-Registry-Auth"

  /** Unicode simple folding onto lower case, exact for strings compared with an ASCII name:
      besides A-Z, the Kelvin sign folds to k and the long s to s. */
  function Fold(c: char): char {
    if 'A' <= c <= 'Z' then (c as int + 32) as char
    else if c == '\U{212A}' then 'k'
    else if c == '\U{017F}' then 's'
    else c
  }

  /** strings.EqualFold */
  predicate EqualFold(s: string, t: string) {
    |s| == |t| && forall i :: 0 <= i < |s| ==> Fold(s[i]) == Fold(t[i])
  }

  /** The header keys that spell `name` in any case. */
  function Spellings(headers: map<string, string>, name: string): set<string> {
    set k | k in headers && EqualFold(k, name)
  }

  predicate Present(headers: map<string, string>) {
    Spellings(headers, INTERNAL_HEADER) != {}
  }

  predicate Valid(headers: map<string, string>, token: string) {
    exists k :: k in headers && Spellings(headers, INTERNAL_HEADER) == {k} && headers[k] == token
  }

  /** Token.Check: though the loop keeps only the last comparison, the answer is the same for every
      order in which the header map is ranged over. */
  method Check(headers: map<string, string>, token: string) returns (present: bool, valid: bool)
    ensures present == Present(headers)
    ensures valid == Valid(headers, token)
  {
    var count := 0;
    valid := false;
    var rest := headers.Keys;
    ghost var seen: set<string> := {};
    while rest != {}
      invariant rest <= headers.Keys
      invariant seen == set k | k in headers.Keys - rest && EqualFold(k, INTERNAL_HEADER)
      invariant count == |seen|
      invariant count == 0 ==> !valid
      invariant forall k :: seen == {k} ==> (valid <==> headers[k] == token)
      decreases rest
    {
      var key :| key in rest;
      rest := rest - {key};
      if EqualFold(key, INTERNAL_HEADER) {
        count := count + 1;
        valid := headers[key] == token;
        seen := seen + {key};
      }
    }
    assert seen == Spellings(headers, INTERNAL_HEADER);
    if count == 1 {
      OneElement(seen);
    } else {
      assert forall k :: seen != {k};
    }
    return count > 0, count == 1 && valid;
  }

  lemma OneElement(s: set<string>)
    requires |s| == 1
    ensures exists k :: s == {k}
  {
    var k :| k in s;
    assert |s - {k}| == 0;
    assert s == {k};
  }

  // ---------------------------------------------------------------- spelling

  /** The same letter in either ASCII case, or the same character. */
  predicate SameLetter(c: char, d: char) {
    c == d || exists i :: 0 <= i < 26 && ((c == LOWER[i] && d == UPPER[i]) || (c == UPPER[i] && d == LOWER[i]))
  }

  /** Differing in ASCII case at most. */
  predicate SameButCase(s: string, t: string) {
    |s| == |t| && forall i :: 0 <= i < |s| ==> SameLetter(s[i], t[i])
  }

  /** A key that Go's case folding takes for an ASCII name: the name in any ASCII case, with the Kelvin
      sign allowed for k and the long s for s. */
  predicate Spells(key: string, name: string) {
    |key| == |name| && forall i :: 0 <= i < |key| ==>
      || SameLetter(key[i], name[i])
      || (key[i] == '\U{212A}' && (name[i] == 'k' || name[i] == 'K'))
      || (key[i] == '\U{017F}' && (name[i] == 's' || name[i] == 'S'))
  }

  lemma FoldedAlike(c: char, d: char)
    requires d < 128 as char
    ensures Fold(c) == Fold(d) <==>
      || SameLetter(c, d)
      || (c == '\U{212A}' && (d == 'k' || d == 'K'))
      || (c == '\U{017F}' && (d == 's' || d == 'S'))
  {
    if SameLetter(c, d) && c != d {
      var i :| 0 <= i < 26 && ((c == LOWER[i] && d == UPPER[i]) || (c == UPPER[i] && d == LOWER[i]));
      LetterAt(i);
    }
    if Fold(c) == Fold(d) && 'a' <= Fold(d) <= 'z' {
      var i := Fold(d) as int - 'a' as int;
      LetterAt(i);
    }
    hide SameLetter;
  }

  lemma FoldIsSpelling(key: string, name: string)
    requires forall c :: c in name ==> c < 128 as char
    ensures EqualFold(key, name) <==> Spells(key, name)
  {
    hide SameLetter, Fold;
    if |key| == |name| {
      forall i | 0 <= i < |key|
        ensures Fold(key[i]) == Fold(name[i]) <==>
          || SameLetter(key[i], name[i])
          || (key[i] == '\U{212A}' && (name[i] == 'k' || name[i] == 'K'))
          || (key[i] == '\U{017F}' && (name[i] == 's' || name[i] == 'S'))
      {
        assert name[i] in name;
        FoldedAlike(key[i], name[i]);
      }
    }
  }

  /** Token and credential header spelt out: a token request has some key spelling the header; it is
      valid if that key is the only one and holds the token. */
  lemma HeadersSpeltOut(headers: map<string, string>, token: string)
    ensures Present(headers) <==> exists k :: k in headers && Spells(k, "X-Dockauthz-Internal-Token")
    ensures Valid(headers, token) <==> exists k ::
      && k in headers && Spells(k, "X-Dockauthz-Internal-Token") && headers[k] == token
      && forall l :: l in headers && Spells(l, "X-Dockauthz-Internal-Token") ==> l == k
    ensures Spellings(headers, REGISTRY_AUTH) == {} <==> forall k :: k in headers ==> !Spells(k, "X-Registry-Auth")
  {
    forall k {
      SpellingIs(k);
    }
    hide Spells, EqualFold;
    var spelt := Spellings(headers, INTERNAL_HEADER);
    assert forall k :: k in spelt <==> k in headers && Spells(k, "X-Dockauthz-Internal-Token");
    assert forall k :: k in Spellings(headers, REGISTRY_AUTH) <==> k in headers && Spells(k, "X-Registry-Auth");
    forall k | k in spelt && forall l :: l in spelt ==> l == k ensures spelt == {k} {
    }
  }

  lemma SpellingIs(k: string)
    ensures EqualFold(k, INTERNAL_HEADER) <==> Spells(k, "X-Dockauthz-Internal-Token")
    ensures EqualFold(k, REGISTRY_AUTH) <==> Spells(k, "X-Registry-Auth")
  {
    assert forall c :: c in INTERNAL_HEADER || c in REGISTRY_AUTH ==> c < 128 as char;
    hide Spells, Fold;
    FoldIsSpelling(k, INTERNAL_HEADER);
    FoldIsSpelling(k, REGISTRY_AUTH);
  }

  /** The same headers with each key respelt in another case, keys kept apart. */
  ghost predicate Respelt(headers: map<string, string>, respelt: map<string, string>, rename: map<string, string>) {
    && rename.Keys == headers.Keys && respelt.Keys == rename.Values
    && (forall k, l :: k in rename && l in rename && rename[k] == rename[l] ==> k == l)
    && forall k :: k in rename ==> SameButCase(k, rename[k]) && rename[k] in respelt && respelt[rename[k]] == headers[k]
  }

  /** Changing the case of header keys changes neither the token check nor the credential gate. */
  lemma CaseOfKeysIsIrrelevant(
      headers: map<string, string>, respelt: map<string, string>, rename: map<string, string>, token: string)
    requires Respelt(headers, respelt, rename)
    ensures Present(respelt) == Present(headers) && Valid(respelt, token) == Valid(headers, token)
    ensures Spellings(respelt, REGISTRY_AUTH) == {} <==> Spellings(headers, REGISTRY_AUTH) == {}
  {
    RespeltSpellings(headers, respelt, rename, INTERNAL_HEADER);
    RespeltSpellings(headers, respelt, rename, REGISTRY_AUTH);
    SameImages(headers, respelt, rename, token);
    hide Spellings, Respelt, Valid;
    SameEmptiness(Spellings(headers, REGISTRY_AUTH), rename);
    SameEmptiness(Spellings(headers, INTERNAL_HEADER), rename);
  }

  function Renamed(keys: set<string>, rename: map<string, string>): set<string>
    requires keys <= rename.Keys
  {
    set k | k in keys :: rename[k]
  }

  lemma SameEmptiness(keys: set<string>, rename: map<string, string>)
    requires keys <= rename.Keys
    ensures keys == {} <==> Renamed(keys, rename) == {}
  {
    if k :| k in keys {
      assert rename[k] in Renamed(keys, rename);
    }
  }

  lemma SameImages(headers: map<string, string>, respelt: map<string, string>, rename: map<string, string>, token: string)
    requires Respelt(headers, respelt, rename) && Spellings(headers, INTERNAL_HEADER) <= rename.Keys
    requires Spellings(respelt, INTERNAL_HEADER) == Renamed(Spellings(headers, INTERNAL_HEADER), rename)
    ensures Valid(respelt, token) == Valid(headers, token)
  {
    hide Spellings, SameButCase;
    var a, b := Spellings(headers, INTERNAL_HEADER), Spellings(respelt, INTERNAL_HEADER);
    if k :| k in headers && a == {k} && headers[k] == token {
      OneImage(a, rename, k);
    }
    if k' :| k' in respelt && b == {k'} && respelt[k'] == token {
      var k :| k in rename && rename[k] == k';
      assert forall l :: l in a ==> rename[l] in b;
      assert forall l :: l in a ==> l == k;
      SameEmptiness(a, rename);
      assert a == {k};
    }
  }

  lemma OneImage(keys: set<string>, rename: map<string, string>, k: string)
    requires keys == {k} && k in rename
    ensures Renamed(keys, rename) == {rename[k]}
  {
  }

  lemma FoldOfLetter(i: nat)
    requires i < 26
    ensures Fold(LOWER[i]) == LOWER[i] && Fold(UPPER[i]) == LOWER[i]
  {
    LetterAt(i);
  }

  lemma LetterFolds(c: char, d: char)
    requires SameLetter(c, d)
    ensures Fold(c) == Fold(d)
  {
    hide Fold;
    if c != d {
      var i :| 0 <= i < 26 && ((c == LOWER[i] && d == UPPER[i]) || (c == UPPER[i] && d == LOWER[i]));
      FoldOfLetter(i);
    }
  }

  lemma CaseFolds(s: string, t: string)
    requires SameButCase(s, t)
    ensures |s| == |t| && forall i :: 0 <= i < |s| ==> Fold(s[i]) == Fold(t[i])
  {
    hide SameLetter, Fold;
    forall i | 0 <= i < |s| ensures Fold(s[i]) == Fold(t[i]) {
      LetterFolds(s[i], t[i]);
    }
  }

  lemma RespeltSpellings(headers: map<string, string>, respelt: map<string, string>, rename: map<string, string>, name: string)
    requires Respelt(headers, respelt, rename)
    ensures Spellings(headers, name) <= rename.Keys
    ensures Spellings(respelt, name) == Renamed(Spellings(headers, name), rename)
  {
    forall k | k in rename ensures EqualFold(rename[k], name) == EqualFold(k, name) {
      CaseFolds(k, rename[k]);
    }
    hide EqualFold, SameButCase;
    assert forall k :: k in rename ==> (rename[k] in Spellings(respelt, name) <==> k in Spellings(headers, name));
  }
}
