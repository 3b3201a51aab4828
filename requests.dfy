/** The pure string work around one request: the bearer-token clean-up of
    the `GrpcClient` constructor, the `:path` and `:authority` pseudo-headers
    of `call`, and the parsing of the comma-separated `TOKENS` setting. */
module Requests {
  import opened Strings

  /** `^Bearer\s+` under `/i`: the word, at least one whitespace character,
      and then the greedy rest of the whitespace run. */
  predicate HasBearerPrefix(s: string) {
    StartsWithIgnoreCase(s, "bearer") && |s| > 6 && IsJsWhitespace(s[6])
  }

  /** `s.replace(/^Bearer\s+/i, '')`. */
  function StripBearer(s: string): (r: string)
    ensures |r| <= |s| && r == s[|s| - |r|..]
  {
    if HasBearerPrefix(s) then s[SkipWhitespace(s, 6)..] else s
  }

  /** `^authorization:\s*Bearer\s+` under `/i`. */
  predicate HasAuthorizationPrefix(s: string) {
    StartsWithIgnoreCase(s, "authorization:") && HasBearerPrefix(s[SkipWhitespace(s, 14)..])
  }

  /** `s.replace(/^authorization:\s*Bearer\s+/i, '')`. */
  function StripAuthorization(s: string): (r: string)
    ensures |r| <= |s| && r == s[|s| - |r|..]
  {
    if HasAuthorizationPrefix(s) then StripBearer(s[SkipWhitespace(s, 14)..]) else s
  }

  /** The token the constructor keeps: the `Bearer` prefix is removed
      first, then an `authorization: Bearer` prefix; each regular
      expression replaces at most one match. */
  function NormalizeToken(raw: string): string {
    StripAuthorization(StripBearer(raw))
  }

  /** A token that neither prefix can match at its start. */
  predicate IsBareToken(t: string) {
    (|t| > 0 ==> !IsJsWhitespace(t[0])) && !HasBearerPrefix(t) && !HasAuthorizationPrefix(t)
  }

  /** Normalisation leaves a bare token alone. */
  lemma NormalizeBareToken(t: string)
    requires IsBareToken(t)
    ensures NormalizeToken(t) == t
  {
  }

  /** A bare token written after `Bearer` and a space comes back bare. */
  lemma NormalizeBearerToken(t: string)
    requires IsBareToken(t)
    ensures NormalizeToken("Bearer " + t) == t
  {
    var s := "Bearer " + t;
    assert s[7..] == t;
    assert StartsWithIgnoreCase(s, "bearer") by {
      assert s[..6] == "Bearer";
    }
    BearerStripped(s, t);
  }

  /** A bare token written after `authorization: Bearer ` comes back bare. */
  lemma NormalizeAuthorizationToken(t: string)
    requires IsBareToken(t)
    ensures NormalizeToken("authorization: Bearer " + t) == t
  {
    var s := "authorization: Bearer " + t;
    assert s[22..] == t;
    assert s[..14] == "authorization:";
    assert StartsWithIgnoreCase(s, "authorization:");
    assert s[15..][..6] == "Bearer";
    assert StartsWithIgnoreCase(s[15..], "bearer");
    AuthorizationStripped(s, 15, 22, t);
  }

  /** Helper: a `Bearer` and whitespace in front of a bare token is removed. */
  lemma BearerStripped(s: string, t: string)
    requires IsBareToken(t) && |s| >= 7 && s[7..] == t
    requires StartsWithIgnoreCase(s, "bearer") && IsJsWhitespace(s[6])
    ensures StripBearer(s) == t && NormalizeToken(s) == t
  {
    assert |t| > 0 ==> s[7] == t[0];
    LeadingWhitespaceDropped(s, 6, 7);
  }

  /** Helper: an `authorization:` prefix, whitespace, `Bearer` at offset
      `b` and whitespace up to offset `e` in front of a bare token. */
  lemma AuthorizationStripped(s: string, b: nat, e: nat, t: string)
    requires IsBareToken(t) && 14 <= b && b + 6 < e <= |s| && s[e..] == t
    requires StartsWithIgnoreCase(s, "authorization:")
    requires WhitespaceBetween(s, 14, b)
    requires StartsWithIgnoreCase(s[b..], "bearer")
    requires WhitespaceBetween(s, b + 6, e)
    ensures NormalizeToken(s) == t
  {
    assert !HasBearerPrefix(s) by { assert AsciiLower(s[0]) == 'a'; }
    var u := s[b..];
    assert !IsJsWhitespace(s[b]) by { assert AsciiLower(u[0]) == 'b'; }
    LeadingWhitespaceDropped(s, 14, b);
    assert |t| > 0 ==> u[e - b] == t[0];
    assert WhitespaceBetween(u, 6, e - b) by {
      forall i | 6 <= i < e - b ensures IsJsWhitespace(u[i]) {
        assert u[i] == s[b + i];
      }
    }
    LeadingWhitespaceDropped(u, 6, e - b);
    assert u[e - b..] == t;
    assert HasBearerPrefix(u) by { assert u[6] == s[b + 6]; }
  }

  /** The `:path` pseudo-header `/${service}/${method}`. */
  function RequestPath(service: string, rpc: string): string {
    "/" + service + "/" + rpc
  }

  /** A path built from names without `/` splits back into those names. */
  lemma RequestPathSplits(service: string, rpc: string)
    requires '/' !in service && '/' !in rpc
    ensures Split(RequestPath(service, rpc), '/') == ["", service, rpc]
  {
    var parts := ["", service, rpc];
    assert parts[1..] == [service, rpc] && parts[1..][1..] == [rpc];
    assert Join([service, rpc], '/') == service + "/" + rpc;
    assert Join(parts, '/') == "" + "/" + (service + "/" + rpc);
    assert Join(parts, '/') == RequestPath(service, rpc);
    SplitJoin(parts, '/');
  }

  /** The `:authority` pseudo-header: `baseUrl.replace('https://', '')`,
      which deletes the first occurrence of the scheme wherever it is. */
  function Authority(baseUrl: string): string {
    ReplaceFirst(baseUrl, "https://", "")
  }

  /** An `https://` URL loses its scheme; a string without `https://`
      anywhere is its own authority. */
  lemma AuthorityCases(baseUrl: string)
    ensures |baseUrl| >= 8 && baseUrl[..8] == "https://" ==> Authority(baseUrl) == baseUrl[8..]
    ensures (forall k :: !OccursAt(baseUrl, "https://", k)) ==> Authority(baseUrl) == baseUrl
  {
    ReplaceFirstCases(baseUrl, "https://", "");
  }

  /** The `authorization` header value for a normalised token. */
  function AuthorizationValue(token: string): string {
    "Bearer " + token
  }

  /** The header `call` sends carries exactly the token the client holds:
      normalising the header value gives the token back. */
  lemma AuthorizationRoundTrip(token: string)
    requires IsBareToken(token)
    ensures NormalizeToken(AuthorizationValue(token)) == token
  {
    NormalizeBearerToken(token);
  }

  /** The headers `call` derives from its arguments; the fixed protocol
      headers are configuration and are not part of this value. */
  datatype RequestHead = RequestHead(path: string, authority: string, authorization: string)

  function MakeRequestHead(baseUrl: string, token: string, service: string, rpc: string): RequestHead {
    RequestHead(RequestPath(service, rpc), Authority(baseUrl), AuthorizationValue(token))
  }

  const DEFAULT_TOKENS: seq<string> := ["在此填入默认Token(可选)"]

  /** `rawTokens.split(',').map(t => t.trim()).filter(t => t)` */
  function SplitTokens(raw: string): seq<string> {
    NonEmpty(TrimAll(Split(raw, ',')))
  }

  /** `map(t => t.trim())`. */
  function TrimAll(parts: seq<string>): seq<string> {
    if |parts| == 0 then [] else [Trim(parts[0])] + TrimAll(parts[1..])
  }

  /** Each piece is trimmed on its own, in place. */
  lemma {:induction false} TrimAllPointwise(parts: seq<string>)
    ensures |TrimAll(parts)| == |parts|
    ensures forall i :: 0 <= i < |parts| ==> TrimAll(parts)[i] == Trim(parts[i])
  {
    if |parts| > 0 {
      TrimAllPointwise(parts[1..]);
    }
  }

  /** `filter(t => t)`: the empty strings go, the others stay in order. */
  function NonEmpty(parts: seq<string>): (r: seq<string>)
    ensures forall i :: 0 <= i < |r| ==> |r[i]| > 0
    ensures forall t :: t in r <==> t in parts && |t| > 0
    ensures (forall i :: 0 <= i < |parts| ==> |parts[i]| > 0) ==> r == parts
  {
    if |parts| == 0 then []
    else if |parts[0]| == 0 then NonEmpty(parts[1..])
    else [parts[0]] + NonEmpty(parts[1..])
  }

  /** `filter` distributes over concatenation: the kept strings keep
      their order and their number of copies. */
  lemma {:induction false} NonEmptyAppend(a: seq<string>, b: seq<string>)
    ensures NonEmpty(a + b) == NonEmpty(a) + NonEmpty(b)
    decreases |a|
  {
    if |a| == 0 {
      assert a + b == b;
    } else {
      assert (a + b)[0] == a[0];
      assert (a + b)[1..] == a[1..] + b;
      NonEmptyAppend(a[1..], b);
    }
  }

  /** `filter` on one string: an empty one goes, any other stays. */
  lemma NonEmptySingle(t: string)
    ensures NonEmpty([t]) == if t == "" then [] else [t]
  {
  }

  /** A token already cleaned up: non-empty, no comma, no whitespace at
      either end. */
  predicate IsCleanToken(t: string) {
    |t| > 0 && ',' !in t && !IsJsWhitespace(t[0]) && !IsJsWhitespace(t[|t| - 1])
  }

  /** `TOKENS`: the defaults stand in only when the setting is the empty
      string; otherwise every token is clean, and a setting made only of
      commas and blanks yields no token at all. */
  function ParseTokens(raw: string): (r: seq<string>)
    ensures raw == "" ==> r == DEFAULT_TOKENS
    ensures raw != "" ==> forall i :: 0 <= i < |r| ==> IsCleanToken(r[i])
  {
    if raw == "" then DEFAULT_TOKENS
    else
      SplitTokensClean(raw);
      SplitTokens(raw)
  }

  /** Helper: every token the split, trim and filter keep is clean. */
  lemma SplitTokensClean(raw: string)
    ensures forall i :: 0 <= i < |SplitTokens(raw)| ==> IsCleanToken(SplitTokens(raw)[i])
  {
    var trimmed := TrimAll(Split(raw, ','));
    TrimmedPiecesClean(Split(raw, ','));
    var r := NonEmpty(trimmed);
    forall i | 0 <= i < |r| ensures IsCleanToken(r[i]) {
      assert r[i] in trimmed;
    }
  }

  /** Helper: trimming comma-free pieces leaves clean or empty pieces. */
  lemma TrimmedPiecesClean(parts: seq<string>)
    requires forall j :: 0 <= j < |parts| ==> ',' !in parts[j]
    ensures forall t :: t in TrimAll(parts) && |t| > 0 ==> IsCleanToken(t)
  {
    var trimmed := TrimAll(parts);
    TrimAllPointwise(parts);
    forall t | t in trimmed && |t| > 0 ensures IsCleanToken(t) {
      var j :| 0 <= j < |trimmed| && trimmed[j] == t;
      CleanPiece(parts[j]);
    }
  }

  /** Helper: the trim of a comma-free piece, when not empty, is clean. */
  lemma CleanPiece(p: string)
    requires ',' !in p && |Trim(p)| > 0
    ensures IsCleanToken(Trim(p))
  {
    TrimKeepsCharacters(p, ',');
  }

  /** Round trip: joining clean tokens with commas and parsing the result
      gives the tokens back. */
  lemma ParseJoinedTokens(tokens: seq<string>)
    requires |tokens| >= 1
    requires forall i :: 0 <= i < |tokens| ==> IsCleanToken(tokens[i])
    ensures ParseTokens(Join(tokens, ',')) == tokens
  {
    JoinedTokensNotEmpty(tokens);
    SplitTokensOfJoin(tokens);
    ParseNonEmpty(Join(tokens, ','));
  }

  /** Helper: a non-empty setting is parsed by split, trim and filter. */
  lemma ParseNonEmpty(raw: string)
    requires raw != ""
    ensures ParseTokens(raw) == SplitTokens(raw)
  {
  }

  /** Helper: joining clean tokens gives a non-empty setting. */
  lemma JoinedTokensNotEmpty(tokens: seq<string>)
    requires |tokens| >= 1
    requires forall i :: 0 <= i < |tokens| ==> IsCleanToken(tokens[i])
    ensures Join(tokens, ',') != ""
  {
    JoinNonEmpty(tokens, ',');
    assert |tokens[0]| > 0;
  }

  /** Helper: split, trim and filter undo the join of clean tokens. */
  lemma SplitTokensOfJoin(tokens: seq<string>)
    requires |tokens| >= 1
    requires forall i :: 0 <= i < |tokens| ==> IsCleanToken(tokens[i])
    ensures SplitTokens(Join(tokens, ',')) == tokens
  {
    SplitCleanJoin(tokens);
    TrimAllClean(tokens);
    NonEmptyClean(tokens);
  }

  lemma SplitCleanJoin(tokens: seq<string>)
    requires |tokens| >= 1
    requires forall i :: 0 <= i < |tokens| ==> IsCleanToken(tokens[i])
    ensures Split(Join(tokens, ','), ',') == tokens
  {
    forall i | 0 <= i < |tokens| ensures ',' !in tokens[i] {
      assert IsCleanToken(tokens[i]);
    }
    SplitJoin(tokens, ',');
  }

  lemma {:induction false} TrimAllClean(tokens: seq<string>)
    requires forall i :: 0 <= i < |tokens| ==> IsCleanToken(tokens[i])
    ensures TrimAll(tokens) == tokens
  {
    if |tokens| > 0 {
      var t := tokens[0];
      assert IsCleanToken(t);
      TrimOfClean(t);
      TrimAllClean(tokens[1..]);
      assert TrimAll(tokens) == [t] + tokens[1..];
      assert [t] + tokens[1..] == tokens;
    }
  }

  lemma NonEmptyClean(tokens: seq<string>)
    requires forall i :: 0 <= i < |tokens| ==> IsCleanToken(tokens[i])
    ensures NonEmpty(tokens) == tokens
  {
    assert forall i :: 0 <= i < |tokens| ==> |tokens[i]| > 0;
  }

  /** Helper: a join is at least as long as its first piece. */
  lemma JoinNonEmpty(parts: seq<string>, sep: char)
    requires |parts| >= 1
    ensures |Join(parts, sep)| >= |parts[0]|
  {
  }

  /** One comma-separated piece of a `TOKENS` setting as people write it:
      whitespace, then a clean token or nothing, then whitespace. */
  datatype PaddedPiece = PaddedPiece(before: string, token: string, after: string)

  predicate WellPadded(p: PaddedPiece) {
    && WhitespaceBetween(p.before, 0, |p.before|)
    && WhitespaceBetween(p.after, 0, |p.after|)
    && (p.token == "" || IsCleanToken(p.token))
  }

  function PieceText(p: PaddedPiece): string {
    p.before + p.token + p.after
  }

  function Texts(ps: seq<PaddedPiece>): (r: seq<string>)
    ensures |r| == |ps| && forall i :: 0 <= i < |ps| ==> r[i] == PieceText(ps[i])
  {
    seq(|ps|, i requires 0 <= i < |ps| => PieceText(ps[i]))
  }

  function Tokens(ps: seq<PaddedPiece>): (r: seq<string>)
    ensures |r| == |ps| && forall i :: 0 <= i < |ps| ==> r[i] == ps[i].token
  {
    seq(|ps|, i requires 0 <= i < |ps| => ps[i].token)
  }

  /** A padded piece holds no comma and trims to its token. */
  lemma PaddedPieceTrim(p: PaddedPiece)
    requires WellPadded(p)
    ensures ',' !in PieceText(p) && Trim(PieceText(p)) == p.token
  {
    var text := PieceText(p);
    forall i | 0 <= i < |text| ensures text[i] != ',' {
      if i < |p.before| {
        assert text[i] == p.before[i];
      } else if i < |p.before| + |p.token| {
        assert text[i] == p.token[i - |p.before|];
      } else {
        assert text[i] == p.after[i - |p.before| - |p.token|];
      }
    }
    if p.token == "" {
      assert text == p.before + p.after;
      TrimBlank(p.before, p.after);
    } else {
      TrimPadded(p.before, p.token, p.after);
    }
  }

  /** Round trip for settings written with blanks around the tokens and
      with blank pieces: the tokens come back in order, blanks dropped. */
  lemma ParsePadded(ps: seq<PaddedPiece>)
    requires |ps| >= 1
    requires forall i :: 0 <= i < |ps| ==> WellPadded(ps[i])
    ensures var raw := Join(Texts(ps), ',');
      raw != "" ==> ParseTokens(raw) == NonEmpty(Tokens(ps))
  {
    var texts := Texts(ps);
    forall i | 0 <= i < |texts| ensures ',' !in texts[i] && Trim(texts[i]) == ps[i].token {
      PaddedPieceTrim(ps[i]);
    }
    SplitJoin(texts, ',');
    TrimAllPointwise(texts);
    assert TrimAll(texts) == Tokens(ps);
  }

  /** `" a , ,b "` gives the two tokens `a` and `b`. */
  lemma ParsePaddedExample()
    ensures ParseTokens(" a , ,b ") == ["a", "b"]
  {
    var ps := [PaddedPiece(" ", "a", " "), PaddedPiece(" ", "", ""), PaddedPiece("", "b", " ")];
    ExampleText(ps);
    ExamplePadded(ps);
    ExampleTokens(ps);
    ParsePadded(ps);
  }

  /** Helper: the example's pieces are padded tokens and blanks. */
  lemma ExamplePadded(ps: seq<PaddedPiece>)
    requires ps == [PaddedPiece(" ", "a", " "), PaddedPiece(" ", "", ""), PaddedPiece("", "b", " ")]
    ensures forall i :: 0 <= i < |ps| ==> WellPadded(ps[i])
  {
    assert IsJsWhitespace(' ');
    assert WhitespaceBetween(" ", 0, 1) && WhitespaceBetween("", 0, 0);
    assert IsCleanToken("a") && IsCleanToken("b");
    assert WellPadded(ps[0]) && WellPadded(ps[1]) && WellPadded(ps[2]);
  }

  /** Helper: the tokens of the example's pieces. */
  lemma ExampleTokens(ps: seq<PaddedPiece>)
    requires ps == [PaddedPiece(" ", "a", " "), PaddedPiece(" ", "", ""), PaddedPiece("", "b", " ")]
    ensures NonEmpty(Tokens(ps)) == ["a", "b"]
  {
    var tokens := Tokens(ps);
    assert tokens[0] == "a" && tokens[1] == "" && tokens[2] == "b";
    assert tokens == ["a", "", "b"];
    NonEmptyDropsBlank("a", "b");
  }

  /** Helper: a blank between two tokens is dropped. */
  lemma NonEmptyDropsBlank(a: string, b: string)
    requires |a| > 0 && |b| > 0
    ensures NonEmpty([a, "", b]) == [a, b]
  {
    assert [a, "", b][1..] == ["", b] && ["", b][1..] == [b] && [b][1..] == [];
    assert NonEmpty([b]) == [b];
  }

  /** Helper: the text of the example's pieces. */
  lemma ExampleText(ps: seq<PaddedPiece>)
    requires ps == [PaddedPiece(" ", "a", " "), PaddedPiece(" ", "", ""), PaddedPiece("", "b", " ")]
    ensures Join(Texts(ps), ',') == " a , ,b "
  {
    var texts := [" a ", " ", "b "];
    assert PieceText(ps[0]) == " a " && PieceText(ps[1]) == " " && PieceText(ps[2]) == "b ";
    assert Texts(ps) == texts;
    assert texts[1..] == [" ", "b "] && texts[1..][1..] == ["b "];
    assert Join(texts, ',') == " a " + [','] + (" " + [','] + "b ");
  }

  /** A non-empty setting of commas and blanks only gives no token at all
      (and the defaults do not stand in). */
  lemma ParseBlank(raw: string)
    requires raw != ""
    requires forall i :: 0 <= i < |raw| ==> raw[i] == ',' || IsJsWhitespace(raw[i])
    ensures ParseTokens(raw) == []
  {
    var parts := Split(raw, ',');
    BlankPieces(raw, parts);
    TrimAllPointwise(parts);
    var trimmed := TrimAll(parts);
    forall j | 0 <= j < |trimmed| ensures |trimmed[j]| == 0 {
      TrimBlank(parts[j], "");
      assert parts[j] + "" == parts[j];
    }
    NonEmptyOfEmpties(trimmed);
    ParseNonEmpty(raw);
  }

  /** Helper: the pieces of such a setting are whitespace only. */
  lemma BlankPieces(raw: string, parts: seq<string>)
    requires forall i :: 0 <= i < |raw| ==> raw[i] == ',' || IsJsWhitespace(raw[i])
    requires parts == Split(raw, ',')
    ensures forall j :: 0 <= j < |parts| ==> WhitespaceBetween(parts[j], 0, |parts[j]|)
  {
    forall j, i | 0 <= j < |parts| && 0 <= i < |parts[j]| ensures IsJsWhitespace(parts[j][i]) {
      JoinKeepsCharacters(parts, ',', j, parts[j][i]);
    }
  }

  /** Helper: `filter` keeps nothing of a list of empty strings. */
  lemma {:induction false} NonEmptyOfEmpties(parts: seq<string>)
    requires forall j :: 0 <= j < |parts| ==> |parts[j]| == 0
    ensures NonEmpty(parts) == []
  {
    if |parts| > 0 {
      assert |parts[0]| == 0;
      NonEmptyOfEmpties(parts[1..]);
    }
  }
}
