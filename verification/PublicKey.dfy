/** OpenSSH public keys as the fleet reads them: a key on its own line, and the key tokens inside a longer
    line. */
module PublicKey {
  import opened Wrappers
  import opened Text

  predicate Base64Char(c: char) {
    'A' <= c <= 'Z' || 'a' <= c <= 'z' || IsDigit(c) || c == '+' || c == '/'
  }

  predicate Quoteless(s: string) { forall i :: 0 <= i < |s| ==> s[i] != '"' && s[i] != '#' && s[i] != '\n' }

  /** The key types, each with the space that follows it. */
  const KEY_TYPES := [
    "ssh-ed25519 ", "ssh-rsa ", "ecdsa-sha2-nistp256 ", "ecdsa-sha2-nistp384 ", "ecdsa-sha2-nistp521 ",
    "sk-ssh-ed25519@openssh.com ", "sk-ecdsa-sha2-nistp256@openssh.com "]

  /** A word and the space after it. */
  predicate TypeWord(t: string) {
    |t| > 1 && t[|t| - 1] == ' ' && forall i :: 0 <= i < |t| - 1 ==> '-' <= t[i] <= 'z'
  }

  predicate TypeWords(types: seq<string>) { forall i :: 0 <= i < |types| ==> TypeWord(types[i]) }

  lemma EcdsaTypesAreWords()
    ensures TypeWord("ecdsa-sha2-nistp256 ") && TypeWord("ecdsa-sha2-nistp384 ") && TypeWord("ecdsa-sha2-nistp521 ")
  {
  }

  lemma TokenTypesAreWords()
    ensures TypeWord("sk-ssh-ed25519@openssh.com ") && TypeWord("sk-ecdsa-sha2-nistp256@openssh.com ")
  {
  }

  lemma KeyTypesAreWords()
    ensures TypeWords(KEY_TYPES)
  {
    assert TypeWord("ssh-ed25519 ") && TypeWord("ssh-rsa ");
    EcdsaTypesAreWords();
    TokenTypesAreWords();
  }

  /** The length of the word among `types` that `s` starts with; 0 if it starts with none. */
  function TypeLength(types: seq<string>, s: string): (n: nat)
    ensures n <= |s|
  {
    if types == [] then 0 else if types[0] <= s then |types[0]| else TypeLength(types[1..], s)
  }

  lemma {:induction false} TypeQuoteless(types: seq<string>, s: string)
    requires TypeWords(types)
    ensures Quoteless(s[..TypeLength(types, s)])
  {
    if types != [] {
      if types[0] <= s {
        assert s[..|types[0]|] == types[0];
      } else {
        TypeQuoteless(types[1..], s);
      }
    }
  }

  /** A type word has no space but its last character, so it cannot run on past a space. */
  lemma WordEndsAtSpace(t: string, s: string, k: nat, rest: string)
    requires TypeWord(t) && k < |s| && s[k] == ' '
    ensures t <= s + rest ==> t <= s
  {
    if t <= s + rest {
      assert forall i :: 0 <= i < |t| ==> t[i] == (s + rest)[i];
      assert k < |t| ==> t[k] == ' ';
      assert t == (s + rest)[..|t|] == s[..|t|];
    }
  }

  /** What follows a key does not change which type it starts with. */
  lemma {:induction false} TypeStable(types: seq<string>, s: string, rest: string)
    requires TypeWords(types) && TypeLength(types, s) > 0
    ensures TypeLength(types, s + rest) == TypeLength(types, s)
    ensures s[TypeLength(types, s) - 1] == ' '
  {
    if types[0] <= s {
      assert types[0] <= s + rest;
    } else {
      TypeStable(types[1..], s, rest);
      WordEndsAtSpace(types[0], s, TypeLength(types[1..], s) - 1, rest);
    }
  }

  function Base64Run(s: string): (n: nat)
    ensures n <= |s|
  {
    if s == "" || !Base64Char(s[0]) then 0 else 1 + Base64Run(s[1..])
  }

  /** `={0,3}`. */
  function Padding(s: string, most: nat): (n: nat)
    ensures n <= |s| && n <= most
  {
    if most == 0 || s == "" || s[0] != '=' then 0 else 1 + Padding(s[1..], most - 1)
  }

  /** SSH_PUBKEY_TOKEN_RE at the start of `s`: the length of the key it starts with, 0 if none. */
  function TokenLength(s: string): (n: nat)
    ensures n <= |s|
  {
    var t := TypeLength(KEY_TYPES, s);
    var b := Base64Run(s[t..]);
    if t == 0 || b == 0 then 0 else t + b + Padding(s[t + b..], 3)
  }

  /** normalizePubKey: type and blob, without the comment. */
  function NormalizeKey(line: string): Option<string> {
    var t := Trim(line);
    var n := TokenLength(t);
    if n > 0 && (n == |t| || (t[n] == ' ' && '\r' !in t[n..] && '\n' !in t[n..])) then Some(t[..n]) else None
  }

  /** `matchAll` of the token, keeping the last match. */
  function LastToken(s: string): Option<string>
    decreases |s|
  {
    if s == "" then None
    else
      var n := TokenLength(s);
      if n == 0 then LastToken(s[1..])
      else var later := LastToken(s[n..]); if later.Some? then later else Some(s[..n])
  }

  lemma {:induction false} Base64RunExact(s: string)
    ensures forall i :: 0 <= i < Base64Run(s) ==> Base64Char(s[i])
    ensures Base64Run(s) < |s| ==> !Base64Char(s[Base64Run(s)])
  {
    if s != "" && Base64Char(s[0]) {
      Base64RunExact(s[1..]);
    }
  }

  lemma {:induction false} PaddingExact(s: string, most: nat)
    ensures forall i :: 0 <= i < Padding(s, most) ==> s[i] == '='
  {
    if most > 0 && s != "" && s[0] == '=' {
      PaddingExact(s[1..], most - 1);
    }
  }

  lemma TokenQuoteless(s: string)
    ensures Quoteless(s[..TokenLength(s)])
  {
    KeyTypesAreWords();
    TypeQuoteless(KEY_TYPES, s);
    var t := TypeLength(KEY_TYPES, s);
    var b := Base64Run(s[t..]);
    Base64RunExact(s[t..]);
    PaddingExact(s[t + b..], 3);
    forall i | 0 <= i < TokenLength(s)
      ensures s[i] != '"' && s[i] != '#' && s[i] != '\n'
    {
      if i < t {
        assert s[i] == s[..t][i];
      } else if i < t + b {
        assert s[i] == s[t..][i - t];
      } else {
        assert s[i] == s[t + b..][i - t - b];
      }
    }
  }

  lemma {:induction false} Base64RunStable(s: string, rest: string)
    requires rest != "" ==> !Base64Char(rest[0])
    ensures Base64Run(s + rest) == Base64Run(s)
  {
    if s == "" {
      assert s + rest == rest;
    } else if Base64Char(s[0]) {
      assert (s + rest)[1..] == s[1..] + rest;
      Base64RunStable(s[1..], rest);
    }
  }

  lemma {:induction false} PaddingStable(s: string, most: nat, rest: string)
    requires rest != "" ==> rest[0] != '='
    ensures Padding(s + rest, most) == Padding(s, most)
  {
    if s == "" {
      assert s + rest == rest;
    } else if most > 0 && s[0] == '=' {
      assert (s + rest)[1..] == s[1..] + rest;
      PaddingStable(s[1..], most - 1, rest);
    }
  }

  predicate EndsKey(rest: string) { rest != "" ==> !Base64Char(rest[0]) && rest[0] != '=' }

  /** A key token on its own. */
  predicate IsKey(key: string) { key != "" && TokenLength(key) == |key| }

  lemma {:induction false} Base64RunTake(s: string, n: nat)
    requires Base64Run(s) <= n <= |s|
    ensures Base64Run(s[..n]) == Base64Run(s)
  {
    if s != "" && Base64Char(s[0]) {
      assert s[..n][1..] == s[1..][..n - 1];
      Base64RunTake(s[1..], n - 1);
    }
  }

  lemma {:induction false} PaddingTake(s: string, most: nat)
    ensures Padding(s[..Padding(s, most)], most) == Padding(s, most)
  {
    var n := Padding(s, most);
    if n > 0 {
      assert s[..n][1..] == s[1..][..n - 1];
      PaddingTake(s[1..], most - 1);
    }
  }

  lemma {:induction false} TypeTake(types: seq<string>, s: string, n: nat)
    requires TypeWords(types) && 0 < TypeLength(types, s) <= n <= |s|
    ensures TypeLength(types, s[..n]) == TypeLength(types, s)
  {
    if types[0] <= s {
      assert types[0] <= s[..n];
    } else {
      TypeTake(types[1..], s, n);
    }
  }

  lemma Slices(s: string, n: nat, i: nat)
    requires i <= n <= |s|
    ensures s[..n][i..] == s[i..][..n - i]
  {
  }

  /** The parts of a token. */
  lemma TokenParts(s: string, t: nat, b: nat)
    requires t == TypeLength(KEY_TYPES, s) && t > 0 && b == Base64Run(s[t..]) && b > 0
    ensures TokenLength(s) == t + b + Padding(s[t + b..], 3)
  {
  }

  /** A token taken out of the text it was found in is still that token. */
  lemma TokenIsKey(s: string)
    requires TokenLength(s) > 0
    ensures IsKey(s[..TokenLength(s)])
  {
    var n := TokenLength(s);
    var t := TypeLength(KEY_TYPES, s);
    var b := Base64Run(s[t..]);
    var k := s[..n];
    assert t > 0 && b > 0;
    TokenParts(s, t, b);
    KeyTypesAreWords();
    hide TokenLength, TypeLength, Base64Run, Padding, TypeWords;
    TypeTake(KEY_TYPES, s, n);
    Slices(s, n, t);
    Base64RunTake(s[t..], n - t);
    Slices(s, n, t + b);
    PaddingTake(s[t + b..], 3);
    TokenParts(k, t, b);
  }

  /** A key token ends at the first character a key cannot hold, whatever follows. */
  lemma TokenStable(s: string, rest: string)
    requires TokenLength(s) > 0 && EndsKey(rest)
    ensures TokenLength(s + rest) == TokenLength(s)
  {
    var t := TypeLength(KEY_TYPES, s);
    var b := Base64Run(s[t..]);
    assert t > 0 && b > 0;
    TokenParts(s, t, b);
    KeyTypesAreWords();
    hide TokenLength, TypeLength, Base64Run, Padding, TypeWords;
    TypeStable(KEY_TYPES, s, rest);
    assert (s + rest)[t..] == s[t..] + rest;
    Base64RunStable(s[t..], rest);
    assert (s + rest)[t + b..] == s[t + b..] + rest;
    PaddingStable(s[t + b..], 3, rest);
    TokenParts(s + rest, t, b);
  }

  lemma {:induction false} TypeStart(types: seq<string>, s: string)
    requires TypeWords(types) && TypeLength(types, s) > 0
    ensures !IsSpace(s[0])
  {
    if types[0] <= s {
      assert s[0] == types[0][0];
    } else {
      TypeStart(types[1..], s);
    }
  }

  lemma KeyIsTight(key: string)
    requires IsKey(key)
    ensures Tight(key)
  {
    KeyTypesAreWords();
    TypeStart(KEY_TYPES, key);
    var t := TypeLength(KEY_TYPES, key);
    var b := Base64Run(key[t..]);
    Base64RunExact(key[t..]);
    PaddingExact(key[t + b..], 3);
    if t + b < |key| {
      assert key[|key| - 1] == key[t + b..][|key| - 1 - t - b];
    } else {
      assert key[|key| - 1] == key[t..][b - 1];
    }
  }

  /** What is normalized once stays as it is. */
  lemma NormalizeKeyFixed(key: string)
    requires IsKey(key)
    ensures NormalizeKey(key) == Some(key)
  {
    KeyIsTight(key);
    TrimTight(key);
    assert key[..|key|] == key;
  }

  lemma NormalizedIsKey(line: string)
    requires NormalizeKey(line).Some?
    ensures IsKey(NormalizeKey(line).value)
  {
    TokenIsKey(Trim(line));
  }

  // ---------------------------------------------------------------- what a key looks like

  predicate Base64(s: string) { forall i :: 0 <= i < |s| ==> Base64Char(s[i]) }

  predicate Equals(s: string) { forall i :: 0 <= i < |s| ==> s[i] == '=' }

  lemma {:induction false} TypeFound(types: seq<string>, i: nat, rest: string)
    requires TypeWords(types) && i < |types|
    ensures TypeLength(types, types[i] + rest) == |types[i]|
  {
    var s := types[i] + rest;
    if types[0] <= s {
      var a, b := |types[0]|, |types[i]|;
      assert forall k :: 0 <= k < a ==> types[0][k] == s[k];
      assert a - 1 < b ==> types[i][a - 1] == ' ';
      assert b - 1 < a ==> types[0][b - 1] == s[b - 1] == ' ';
    } else {
      assert types[0] <= types[0] + rest;
      TypeFound(types[1..], i - 1, rest);
    }
  }

  lemma {:induction false} RunOfBase64(body: string, rest: string)
    requires Base64(body) && (rest != "" ==> !Base64Char(rest[0]))
    ensures Base64Run(body + rest) == |body|
  {
    if body == "" {
      assert body + rest == rest;
    } else {
      assert (body + rest)[1..] == body[1..] + rest;
      RunOfBase64(body[1..], rest);
    }
  }

  lemma {:induction false} RunOfEquals(pad: string, most: nat)
    requires Equals(pad) && |pad| <= most
    ensures Padding(pad, most) == |pad|
  {
    if pad != "" { RunOfEquals(pad[1..], most - 1); }
  }

  lemma {:induction false} TypeIsListed(types: seq<string>, s: string)
    requires TypeLength(types, s) > 0
    ensures s[..TypeLength(types, s)] in types
  {
    if types[0] <= s {
      assert s[..|types[0]|] == types[0];
    } else {
      TypeIsListed(types[1..], s);
    }
  }

  /** A key is one of the seven types, a space, base64 text and at most three equals signs, and nothing else. */
  ghost predicate KeyShape(key: string) {
    exists word, body, pad ::
      key == word + (body + pad) && word in KEY_TYPES && body != "" && Base64(body) && Equals(pad) && |pad| <= 3
  }

  lemma KeyExactly(key: string)
    ensures IsKey(key) <==> KeyShape(key)
  {
    if IsKey(key) { KeyHasShape(key); }
    if KeyShape(key) {
      var word, body, pad :|
        key == word + (body + pad) && word in KEY_TYPES && body != "" && Base64(body) && Equals(pad) && |pad| <= 3;
      ShapeIsKey(word, body, pad);
    }
  }

  lemma ShapeIsKey(word: string, body: string, pad: string)
    requires word in KEY_TYPES && body != "" && Base64(body) && Equals(pad) && |pad| <= 3
    ensures IsKey(word + (body + pad))
  {
    var i :| 0 <= i < |KEY_TYPES| && KEY_TYPES[i] == word;
    assert pad != "" ==> pad[0] == '=' && !Base64Char(pad[0]);
    assert word != "" by { KeyTypesAreWords(); }
    hide *;
    KeyTypesAreWords();
    TypeFound(KEY_TYPES, i, body + pad);
    RunOfBase64(body, pad);
    RunOfEquals(pad, 3);
    PartsOfKey(word, body, pad);
    TokenParts(word + (body + pad), |word|, |body|);
  }

  lemma PartsOfKey(word: string, body: string, pad: string)
    ensures var key := word + (body + pad);
            |key| == |word| + |body| + |pad| && key[|word|..] == body + pad && key[|word| + |body|..] == pad
  {
  }

  lemma KeyHasShape(key: string)
    requires IsKey(key)
    ensures KeyShape(key)
  {
    var t := TypeLength(KEY_TYPES, key);
    var b := Base64Run(key[t..]);
    var word, body, pad := key[..t], key[t..][..b], key[t + b..];
    assert t > 0 && b > 0;
    TokenParts(key, t, b);
    hide TypeLength, Base64Run, Padding, TokenLength;
    TypeIsListed(KEY_TYPES, key);
    Base64RunExact(key[t..]);
    PaddingExact(pad, 3);
    assert Base64(body) && Equals(pad);
    assert key == word + (body + pad);
  }

  /** A line normalizes to a key exactly if, white space at its ends apart, it is the key, with nothing or a comment
      on the same line behind it. */
  lemma NormalizeExactly(line: string, key: string)
    ensures NormalizeKey(line) == Some(key) <==>
              IsKey(key) && exists comment ::
                Trim(line) == key + comment
                && (comment == "" || (comment[0] == ' ' && '\r' !in comment && '\n' !in comment))
  {
    var t := Trim(line);
    if NormalizeKey(line) == Some(key) {
      NormalizedIsKey(line);
      assert t == key + t[|key|..];
    }
    if IsKey(key) {
      if comment :| t == key + comment
                    && (comment == "" || (comment[0] == ' ' && '\r' !in comment && '\n' !in comment)) {
        hide TokenLength;
        TokenStable(key, comment);
        assert t[..|key|] == key && t[|key|..] == comment;
      }
    }
  }

  lemma NoTokenHere(s: string)
    requires s != "" && (s[0] == '"' || s[0] == ' ')
    ensures TokenLength(s) == 0
  {
    KeyTypesAreWords();
    if TypeLength(KEY_TYPES, s) > 0 { TypeFirst(KEY_TYPES, s); }
  }

  lemma {:induction false} TypeFirst(types: seq<string>, s: string)
    requires TypeWords(types) && TypeLength(types, s) > 0
    ensures '-' <= s[0] <= 'z'
  {
    if types[0] <= s {
      assert s[0] == types[0][0];
    } else {
      TypeFirst(types[1..], s);
    }
  }

  lemma SkipOne(c: char, s: string)
    requires c == '"' || c == ' '
    ensures LastToken([c] + s) == LastToken(s)
  {
    NoTokenHere([c] + s);
    assert ([c] + s)[1..] == s;
  }

  lemma LastTokenAt(s: string, n: nat)
    requires 0 < n == TokenLength(s) && LastToken(s[n..]).None?
    ensures LastToken(s) == Some(s[..n])
  {
  }

  lemma KeyThenSpace(key: string)
    requires IsKey(key)
    ensures LastToken(key + " ") == Some(key)
  {
    TokenStable(key, " ");
    SkipOne(' ', "");
    var s := key + " ";
    assert s[|key|..] == [' '] + "" && s[..|key|] == key;
    LastTokenAt(s, |key|);
  }

  /** No token runs across a quote. */
  lemma TokenStopsAtQuote(a: string, t: string)
    requires t != "" && t[0] == '"'
    ensures TokenLength(a + t) <= |a|
  {
    var s := a + t;
    TokenQuoteless(s);
    assert s[|a|] == '"';
    assert forall i :: 0 <= i < TokenLength(s) ==> s[i] == s[..TokenLength(s)][i];
  }
}
