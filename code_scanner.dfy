/** The text-processing core of the dependency scanner (codeScanner.py):
    parsing an lftp command line into filename, source and destination,
    post-processing a .NET match into a line number and an HTTP method,
    recording findings, and rendering the collected findings as DSL text.
    Repository listing, file reading, the AST walks and the regular
    expressions themselves are outside the model: their matches arrive as
    inputs. */
module CodeScanner {
  import opened Wrappers
  import opened Strings

  // ---------------------------------------------------------------------
  // Python's `str.split()` with no argument
  // ---------------------------------------------------------------------

  /** The characters Python's `str.isspace` accepts, which is what
      `str.split()` splits on. */
  predicate IsPySpace(c: char) {
    || c == ' '
    || ('\t' <= c <= '\r')
    || ('\U{1C}' <= c <= '\U{1F}')
    || c == '\U{85}' || c == '\U{A0}' || c == '\U{1680}'
    || ('\U{2000}' <= c <= '\U{200A}')
    || c == '\U{2028}' || c == '\U{2029}' || c == '\U{202F}' || c == '\U{205F}' || c == '\U{3000}'
  }

  predicate NoPySpace(s: string) {
    forall i | 0 <= i < |s| :: !IsPySpace(s[i])
  }

  /** A token as `str.split()` produces it: non-empty, without whitespace. */
  predicate IsToken(s: string) {
    s != [] && NoPySpace(s)
  }

  /** The longest prefix of `s` that holds no whitespace. */
  function TokenPrefix(s: string): (t: string)
    ensures |t| <= |s| && t == s[..|t|] && NoPySpace(t)
    ensures |t| < |s| ==> IsPySpace(s[|t|])
    decreases |s|
  {
    if s == [] || IsPySpace(s[0]) then []
    else [s[0]] + TokenPrefix(s[1..])
  }

  /** `s.split()`: the maximal runs of non-whitespace characters, in order. */
  function SplitWhitespace(s: string): seq<string>
    decreases |s|
  {
    if s == [] then []
    else if IsPySpace(s[0]) then SplitWhitespace(s[1..])
    else
      var t := TokenPrefix(s);
      [t] + SplitWhitespace(s[|t|..])
  }

  /** Every piece `split()` returns is a token. */
  lemma {:induction false} SplitWhitespaceTokens(s: string)
    ensures forall i | 0 <= i < |SplitWhitespace(s)| :: IsToken(SplitWhitespace(s)[i])
    decreases |s|
  {
    if s != [] {
      if IsPySpace(s[0]) {
        SplitWhitespaceTokens(s[1..]);
      } else {
        var t := TokenPrefix(s);
        SplitWhitespaceTokens(s[|t|..]);
      }
    }
  }

  /** A whitespace-free prefix that is followed by whitespace (or nothing) is
      exactly the token `TokenPrefix` takes. */
  lemma {:induction false} TokenPrefixOf(t: string, tail: string)
    requires NoPySpace(t)
    requires tail == [] || IsPySpace(tail[0])
    ensures TokenPrefix(t + tail) == t
  {
    if t != [] {
      assert (t + tail)[1..] == t[1..] + tail;
      TokenPrefixOf(t[1..], tail);
      assert [t[0]] + t[1..] == t;
    } else {
      assert t + tail == tail;
    }
  }

  /** Leading whitespace does not change what `split()` returns. */
  lemma {:induction false} SplitSkipsSpaces(w: string, s: string)
    requires forall i | 0 <= i < |w| :: IsPySpace(w[i])
    ensures SplitWhitespace(w + s) == SplitWhitespace(s)
  {
    if w != [] {
      assert (w + s)[1..] == w[1..] + s;
      SplitSkipsSpaces(w[1..], s);
    } else {
      assert w + s == s;
    }
  }

  /** A token followed by whitespace (or nothing) splits off as the first piece. */
  lemma SplitToken(t: string, rest: string)
    requires IsToken(t)
    requires rest == [] || IsPySpace(rest[0])
    ensures SplitWhitespace(t + rest) == [t] + SplitWhitespace(rest)
  {
    TokenPrefixOf(t, rest);
    assert (t + rest)[0] == t[0];
    assert (t + rest)[|t|..] == rest;
  }

  /** The first of several space-joined tokens splits off, and the space after it is skipped. */
  lemma SplitFirstJoined(tokens: seq<string>, tail: string)
    requires |tokens| > 1 && IsToken(tokens[0])
    ensures SplitWhitespace(JoinWith(tokens, " ") + tail)
         == [tokens[0]] + SplitWhitespace(JoinWith(tokens[1..], " ") + tail)
  {
    var t, more := tokens[0], JoinWith(tokens[1..], " ") + tail;
    assert JoinWith(tokens, " ") + tail == t + ([' '] + more);
    SplitToken(t, [' '] + more);
    SplitSkipsSpaces([' '], more);
  }

  /** Tokens joined by single spaces, followed by text that starts with
      whitespace, split back into those tokens followed by the text's own. */
  lemma {:induction false} SplitJoinedTokens(tokens: seq<string>, tail: string)
    requires forall i | 0 <= i < |tokens| :: IsToken(tokens[i])
    requires tail == [] || IsPySpace(tail[0])
    ensures SplitWhitespace(JoinWith(tokens, " ") + tail) == tokens + SplitWhitespace(tail)
    decreases |tokens|
  {
    if |tokens| == 0 {
      assert JoinWith(tokens, " ") + tail == tail;
    } else if |tokens| == 1 {
      SplitToken(tokens[0], tail);
    } else {
      SplitFirstJoined(tokens, tail);
      SplitJoinedTokens(tokens[1..], tail);
      assert [tokens[0]] + (tokens[1..] + SplitWhitespace(tail)) == tokens + SplitWhitespace(tail);
    }
  }

  /** `split()` undoes `" ".join(tokens)` for whitespace-free, non-empty tokens. */
  lemma SplitJoinRoundTrip(tokens: seq<string>)
    requires forall i | 0 <= i < |tokens| :: IsToken(tokens[i])
    ensures SplitWhitespace(JoinWith(tokens, " ")) == tokens
  {
    SplitJoinedTokens(tokens, "");
    assert JoinWith(tokens, " ") + "" == JoinWith(tokens, " ");
    assert tokens + [] == tokens;
  }

  // ---------------------------------------------------------------------
  // `os.path.dirname` (posixpath)
  // ---------------------------------------------------------------------

  /** `s.rfind(c)`: the last index of `c`, or -1. */
  function LastIndexOf(s: string, c: char): (r: int)
    ensures -1 <= r < |s|
    ensures r >= 0 ==> s[r] == c
    decreases |s|
  {
    if s == [] then -1
    else if s[|s| - 1] == c then |s| - 1
    else LastIndexOf(s[..|s| - 1], c)
  }

  /** No `c` occurs after the index found; -1 means `c` does not occur. */
  lemma {:induction false} LastIndexOfIsLast(s: string, c: char)
    ensures forall k | LastIndexOf(s, c) < k < |s| :: s[k] != c
    decreases |s|
  {
    if s != [] && s[|s| - 1] != c {
      LastIndexOfIsLast(s[..|s| - 1], c);
    }
  }

  /** Text without `c` appended after `s` does not move the last `c`. */
  lemma {:induction false} LastIndexOfSkips(s: string, t: string, c: char)
    requires c !in t
    ensures LastIndexOf(s + t, c) == LastIndexOf(s, c)
    decreases |t|
  {
    if t != [] {
      assert (s + t)[|s + t| - 1] == t[|t| - 1];
      assert (s + t)[..|s + t| - 1] == s + t[..|t| - 1];
      LastIndexOfSkips(s, t[..|t| - 1], c);
    } else {
      assert s + t == s;
    }
  }

  /** `s.rstrip(c)` for a single character `c`. */
  function RStrip(s: string, c: char): (t: string)
    ensures |t| <= |s| && t == s[..|t|]
    ensures t == [] || t[|t| - 1] != c
    decreases |s|
  {
    if s != [] && s[|s| - 1] == c then RStrip(s[..|s| - 1], c) else s
  }

  /** Only `c`s are removed, and the result is empty exactly when `s` holds
      nothing else. */
  lemma {:induction false} RStripRemovesOnly(s: string, c: char)
    ensures forall k | |RStrip(s, c)| <= k < |s| :: s[k] == c
    ensures RStrip(s, c) == [] <==> forall k | 0 <= k < |s| :: s[k] == c
    decreases |s|
  {
    if s != [] && s[|s| - 1] == c {
      RStripRemovesOnly(s[..|s| - 1], c);
    }
  }

  predicate AllSlashes(s: string) {
    forall k | 0 <= k < |s| :: s[k] == '/'
  }

  /** `posixpath.dirname(p)`: everything up to the last '/', with the
      trailing slashes removed unless nothing but slashes is left. Stripping
      leaves nothing exactly when the head is empty or all slashes, and then
      the head itself is kept. */
  function Dirname(p: string): (d: string)
    ensures |d| <= |p| && d == p[..|d|]
  {
    var head := p[..LastIndexOf(p, '/') + 1];
    var stripped := RStrip(head, '/');
    if stripped != [] then stripped else head
  }

  /** `Dirname` is posixpath's own test: strip the head's trailing slashes
      unless it is empty or all slashes. */
  lemma DirnameIsPosix(p: string)
    ensures var head := p[..LastIndexOf(p, '/') + 1];
      Dirname(p) == if head != [] && !AllSlashes(head) then RStrip(head, '/') else head
  {
    RStripRemovesOnly(p[..LastIndexOf(p, '/') + 1], '/');
  }

  /** A path has an empty directory part exactly when it holds no '/'. */
  lemma DirnameEmptyIff(p: string)
    ensures Dirname(p) == [] <==> '/' !in p
  {
    LastIndexOfIsLast(p, '/');
  }

  /** The directory of `dir/name` is `dir`, for a name without '/' and a
      directory that does not end in '/'. */
  lemma DirnameOfJoin(dir: string, name: string)
    requires dir != [] && dir[|dir| - 1] != '/'
    requires '/' !in name
    ensures Dirname(dir + "/" + name) == dir
  {
    var p := dir + "/" + name;
    LastIndexOfSkips(dir + "/", name, '/');
    assert LastIndexOf(dir + "/", '/') == |dir|;
    assert p[..|dir| + 1] == dir + "/";
    assert (dir + "/")[..|dir|] == dir;
    assert RStrip(dir + "/", '/') == RStrip(dir, '/') == dir;
  }

  // ---------------------------------------------------------------------
  // `_parse_lftp_command`
  // ---------------------------------------------------------------------

  /** The dictionary `_parse_lftp_command` returns; it always has exactly
      these three keys. */
  datatype LftpDetails = LftpDetails(filename: string, source: string, destination: string)

  /** `parts.index(x)` when `x in parts`, -1 otherwise. */
  function IndexOf(parts: seq<string>, x: string): (i: int)
    ensures -1 <= i < |parts|
    ensures i >= 0 ==> parts[i] == x
  {
    if parts == [] then -1
    else if parts[0] == x then 0
    else
      var i := IndexOf(parts[1..], x);
      if i == -1 then -1 else i + 1
  }

  /** An occurrence with none before it is the one `IndexOf` finds. */
  lemma {:induction false} IndexOfFinds(parts: seq<string>, x: string, i: nat)
    requires i < |parts| && parts[i] == x
    requires forall k | 0 <= k < i :: parts[k] != x
    ensures IndexOf(parts, x) == i
  {
    if i > 0 {
      IndexOfFinds(parts[1..], x, i - 1);
    }
  }

  /** The index found is the first occurrence; -1 means `x` does not occur. */
  lemma {:induction false} IndexOfIsFirst(parts: seq<string>, x: string)
    ensures var i := IndexOf(parts, x);
      forall k | 0 <= k < |parts| && (i == -1 || k < i) :: parts[k] != x
  {
    if parts != [] && parts[0] != x {
      IndexOfIsFirst(parts[1..], x);
      assert forall k | 1 <= k < |parts| :: parts[k] == parts[1..][k - 1];
    }
  }

  /** The test the host search applies to each token. ASCII lower-casing is
      enough: no other character lower-cases to 'f', 't' or 'p'. */
  predicate IsFtpToken(part: string) {
    StartsWith(part, "ftp://") || Contains(LowerAscii(part), "ftp")
  }

  /** The index of the first token that passes `IsFtpToken`, or -1 (the
      `next(...)` over the enumerated tokens). */
  function FirstFtpIndex(parts: seq<string>): (i: int)
    ensures -1 <= i < |parts|
  {
    if parts == [] then -1
    else if IsFtpToken(parts[0]) then 0
    else
      var i := FirstFtpIndex(parts[1..]);
      if i == -1 then -1 else i + 1
  }

  /** The index found passes the test and no token before it does; -1 means
      no token passes. */
  lemma {:induction false} FirstFtpIndexIsFirst(parts: seq<string>)
    ensures var i := FirstFtpIndex(parts);
      && (i >= 0 ==> IsFtpToken(parts[i]))
      && forall k | 0 <= k < |parts| && (i == -1 || k < i) :: !IsFtpToken(parts[k])
  {
    if parts != [] && !IsFtpToken(parts[0]) {
      FirstFtpIndexIsFirst(parts[1..]);
      assert forall k | 1 <= k < |parts| :: parts[k] == parts[1..][k - 1];
    }
  }

  /** `_parse_lftp_command` on the tokens of the command: the token after
      the first `put`, the first FTP-looking token unless it is the first
      token, and the filename's directory or "local". */
  function ParseLftpTokens(parts: seq<string>): LftpDetails
  {
    var filename := LftpFilename(parts);
    LftpDetails(filename, LftpSource(filename), LftpDestination(parts))
  }

  /** The token after the first `put`, or "unknown". */
  function LftpFilename(parts: seq<string>): string {
    var putIndex := IndexOf(parts, "put");
    var fileIndex := if putIndex >= 0 then putIndex + 1 else -1;
    if 0 < fileIndex < |parts| then parts[fileIndex] else "unknown"
  }

  /** The first FTP-looking token, or "unknown" when there is none or it is
      the first token. */
  function LftpDestination(parts: seq<string>): string {
    var hostIndex := FirstFtpIndex(parts);
    if hostIndex > 0 then parts[hostIndex] else "unknown"
  }

  /** The filename's directory, or "local" when it has none. */
  function LftpSource(filename: string): string {
    var dir := Dirname(filename);
    if dir == [] then "local" else dir
  }

  /** `_parse_lftp_command(cmd)`. Nothing in it can raise for a string
      argument, so its all-"unknown" exception result is never produced. */
  function ParseLftpCommand(cmd: string): LftpDetails
  {
    ParseLftpTokens(SplitWhitespace(cmd))
  }

  /** The filename and the destination are always single whitespace-free
      words: a token of the command or "unknown". */
  lemma ParseLftpCommandWords(cmd: string)
    ensures IsToken(ParseLftpCommand(cmd).filename) && IsToken(ParseLftpCommand(cmd).destination)
  {
    SplitWhitespaceTokens(cmd);
    UnknownIsToken();
  }

  lemma UnknownIsToken()
    ensures IsToken("unknown")
  {
    var u := "unknown";
    assert forall i | 0 <= i < |u| :: 'a' <= u[i] <= 'z';
  }

  /** The filename is the token right after the first `put`, when there is
      one; otherwise it is "unknown". */
  lemma FilenameFollowsFirstPut(parts: seq<string>)
    ensures var d := ParseLftpTokens(parts);
      && (forall i | 0 <= i < |parts| - 1 && parts[i] == "put" && (forall k | 0 <= k < i :: parts[k] != "put") ::
            d.filename == parts[i + 1])
      && ((forall k | 0 <= k < |parts| - 1 :: parts[k] != "put") ==> d.filename == "unknown")
  {
    IndexOfIsFirst(parts, "put");
  }

  /** The destination is the first token that looks like an FTP host, unless
      there is none or it is the very first token, when it is "unknown". */
  lemma DestinationIsFirstFtpToken(parts: seq<string>)
    ensures var d := ParseLftpTokens(parts);
      || (d.destination == "unknown" && (parts == [] || IsFtpToken(parts[0]) || forall k | 0 <= k < |parts| :: !IsFtpToken(parts[k])))
      || (exists i | 0 < i < |parts| :: d.destination == parts[i] && IsFtpToken(parts[i]) && forall k | 0 <= k < i :: !IsFtpToken(parts[k]))
  {
    FirstFtpIndexIsFirst(parts);
    var i := FirstFtpIndex(parts);
    if i > 0 {
      assert 0 < i < |parts| && ParseLftpTokens(parts).destination == parts[i];
    }
  }

  /** A command that starts with the `lftp` program name never yields a
      destination: that token contains "ftp" and is found first, at index 0. */
  lemma LeadingLftpHidesDestination(parts: seq<string>)
    requires parts != [] && parts[0] == "lftp"
    ensures ParseLftpTokens(parts).destination == "unknown"
  {
    LowerAsciiFixed("lftp");
    ContainsAt("lftp", "ftp", 1);
  }

  /** The source is the filename's directory, or "local" exactly when the
      filename has no '/'; the "unknown" filename gets "local". */
  lemma SourceIsDirectoryOrLocal(parts: seq<string>)
    ensures var d := ParseLftpTokens(parts);
      && (d.source == "local" <==> '/' !in d.filename || Dirname(d.filename) == "local")
      && ('/' in d.filename ==> d.source == Dirname(d.filename))
      && (d.filename == "unknown" ==> d.source == "local")
  {
    var d := ParseLftpTokens(parts);
    DirnameEmptyIff(d.filename);
  }

  /** A command made of tokens joined by single spaces parses as those
      tokens do. */
  lemma ParseLftpCommandOfJoined(tokens: seq<string>)
    requires forall i | 0 <= i < |tokens| :: IsToken(tokens[i])
    ensures ParseLftpCommand(JoinWith(tokens, " ")) == ParseLftpTokens(tokens)
  {
    SplitJoinRoundTrip(tokens);
  }

  /** A typical command led by the program name,
      `lftp ftp://host put dir/a.txt`: the filename and its directory are
      found, the host is not. */
  lemma LftpLedTokens(tokens: seq<string>)
    requires tokens == ["lftp", "ftp://host", "put", "dir/a.txt"]
    ensures ParseLftpTokens(tokens) == LftpDetails("dir/a.txt", "dir", "unknown")
  {
    LeadingLftpHidesDestination(tokens);
    DirectoryOfPutPath(tokens);
  }

  lemma DirectoryOfPutPath(tokens: seq<string>)
    requires tokens == ["lftp", "ftp://host", "put", "dir/a.txt"]
    ensures ParseLftpTokens(tokens).filename == "dir/a.txt" && ParseLftpTokens(tokens).source == "dir"
  {
    IndexOfFinds(tokens, "put", 2);
    DirnameOfJoin("dir", "a.txt");
    assert "dir" + "/" + "a.txt" == tokens[3];
    ParseWithPutAt(tokens, 2);
  }

  /** With the first `put` at `p` and a token after it, that token is the
      filename, and the source is its directory or "local". */
  lemma ParseWithPutAt(parts: seq<string>, p: int)
    requires IndexOf(parts, "put") == p && 0 <= p && p + 1 < |parts|
    ensures var d := ParseLftpTokens(parts);
      && d.filename == parts[p + 1]
      && d.source == (if Dirname(parts[p + 1]) == [] then "local" else Dirname(parts[p + 1]))
  {
  }

  /** A typical command led by `open`, `open ftp://host put a.txt`: the
      host is found, and a bare filename has the source "local". */
  lemma OpenLedTokens(tokens: seq<string>)
    requires tokens == ["open", "ftp://host", "put", "a.txt"]
    ensures ParseLftpTokens(tokens) == LftpDetails("a.txt", "local", "ftp://host")
  {
    IndexOfFinds(tokens, "put", 2);
    OpenLedHost(tokens);
    BareNameIsLocal();
    ParseWithPutAt(tokens, 2);
  }

  lemma BareNameIsLocal()
    ensures LftpSource("a.txt") == "local"
  {
    DirnameEmptyIff("a.txt");
    assert forall k | 0 <= k < |"a.txt"| :: "a.txt"[k] != '/';
  }

  lemma OpenLedHost(tokens: seq<string>)
    requires tokens == ["open", "ftp://host", "put", "a.txt"]
    ensures FirstFtpIndex(tokens) == 1 && LftpDestination(tokens) == "ftp://host"
  {
    OpenIsNoHost();
    assert StartsWith(tokens[1], "ftp://");
  }

  lemma OpenIsNoHost()
    ensures !IsFtpToken("open")
  {
    LowerAsciiFixed("open");
    if Contains("open", "ftp") {
      ContainsFirstChar("open", "ftp");
    }
  }

  // ---------------------------------------------------------------------
  // Post-processing of the .NET matches (`_analyze_dotnet_code`)
  // ---------------------------------------------------------------------

  /** `code[:start].count('\n') + 1`: the 1-based line a match starts on.
      Python's slice stops at the end of `code` when `start` lies past it. */
  function LineNumber(code: string, start: nat): (line: int)
    ensures 1 <= line <= start + 1
  {
    var end := if start <= |code| then start else |code|;
    CountChar(code[..end], '\n') + 1
  }

  /** The line number is the number of lines the text before the match
      spans, so the match sits on the last of them. */
  lemma LineNumberIsLineCount(code: string, start: nat)
    requires start <= |code|
    ensures LineNumber(code, start) == |SplitOn(code[..start], '\n')|
  {
    SplitOnCount(code[..start], '\n');
  }

  /** A later match is never on an earlier line; it is exactly as many lines
      further down as there are line breaks between the two starts. */
  lemma LineNumberMonotone(code: string, a: nat, b: nat)
    requires a <= b <= |code|
    ensures LineNumber(code, b) == LineNumber(code, a) + CountChar(code[a..b], '\n')
    ensures LineNumber(code, a) <= LineNumber(code, b)
  {
    assert code[..b] == code[..a] + code[a..b];
    CountCharAppend(code[..a], code[a..b], '\n');
  }

  /** One match of the HttpClient pattern: where it starts, the whole
      matched text (`match.group()`) and the captured URL (`match.group(1)
      or match.group(2)`: exactly one alternative matches, and its group is
      non-empty). */
  datatype ApiMatch = ApiMatch(start: nat, text: string, url: string)

  /** The text of a match of the GetAsync alternative. */
  predicate IsGetAsyncMatch(m: ApiMatch) {
    m.text == "HttpClient().GetAsync(\"" + m.url + "\")"
  }

  /** The text of a match of the PostAsync alternative. */
  predicate IsPostAsyncMatch(m: ApiMatch) {
    m.text == "HttpClient().PostAsync(\"" + m.url + "\""
  }

  /** `"GET" if "GetAsync" in match.group() else "POST"`. */
  function DotnetMethod(matchText: string): (verb: string)
    ensures verb == "GET" || verb == "POST"
    ensures verb == "GET" <==> Contains(matchText, "GetAsync")
  {
    if Contains(matchText, "GetAsync") then "GET" else "POST"
  }

  /** A GetAsync match is always classified GET. */
  lemma GetAsyncMatchIsGet(m: ApiMatch)
    requires IsGetAsyncMatch(m)
    ensures DotnetMethod(m.text) == "GET"
  {
    assert m.text[13..21] == "GetAsync";
    ContainsAt(m.text, "GetAsync", 13);
  }

  /** A PostAsync match is classified by the whole matched text, so it comes
      out GET exactly when its URL contains "GetAsync". */
  lemma PostAsyncMatchMethod(m: ApiMatch)
    requires IsPostAsyncMatch(m) && '"' !in m.url
    ensures DotnetMethod(m.text) == "GET" <==> Contains(m.url, "GetAsync")
  {
    var prefix := "HttpClient().PostAsync(\"";
    var text := m.text;
    assert |prefix| == 24 && text == prefix + m.url + "\"";
    if Contains(m.url, "GetAsync") {
      ContainsWitness(m.url, "GetAsync");
      var i: nat :| OccursAt(m.url, "GetAsync", i);
      assert text[24 + i..24 + i + 8] == m.url[i..i + 8];
      ContainsAt(text, "GetAsync", 24 + i);
    }
    if Contains(text, "GetAsync") {
      ContainsWitness(text, "GetAsync");
      var i: nat :| OccursAt(text, "GetAsync", i);
      PostOccurrenceInUrl(m.url, i);
      ContainsAt(m.url, "GetAsync", i - 24);
    }
  }

  /** An occurrence of "GetAsync" in a PostAsync match lies inside the URL:
      the prefix holds no 'G' and the closing quote is not part of it. */
  lemma PostOccurrenceInUrl(url: string, i: nat)
    requires '"' !in url
    requires OccursAt("HttpClient().PostAsync(\"" + url + "\"", "GetAsync", i)
    ensures 24 <= i && i + 8 <= 24 + |url| && url[i - 24..i - 24 + 8] == "GetAsync"
  {
    var prefix := "HttpClient().PostAsync(\"";
    var text := prefix + url + "\"";
    assert text[i..i + 8] == "GetAsync";
    assert text[i] == 'G' && text[i + 7] == 'c';
    assert forall k | 0 <= k < 24 :: text[k] == prefix[k] && prefix[k] != 'G';
    assert text[24 + |url|] == '"';
    assert 24 <= i && i + 8 <= 24 + |url|;
    assert forall k | 24 <= k < 24 + |url| :: text[k] == url[k - 24];
    assert url[i - 24..i - 24 + 8] == text[i..i + 8];
  }

  // ---------------------------------------------------------------------
  // Collected findings and their DSL rendering
  // ---------------------------------------------------------------------

  /** One entry of `dsl_output`. */
  datatype DslItem =
    | LftpTransferItem(details: LftpDetails, file: string, line: int, language: string)
    | ApiCallItem(url: string, verb: string, file: string, line: int, language: string)

  /** One entry of `details["api_calls"]`. */
  datatype ApiCallDetails = ApiCallDetails(url: string, verb: string)

  const DslHeader := "# LFTP and API Insights DSL"

  /** The DSL line of one finding. */
  function RenderItem(item: DslItem): string
  {
    var location := " at " + item.file + ":" + IntToString(item.line) + " (" + item.language + ")";
    match item
    case LftpTransferItem(d, _, _, _) =>
      "LFTP_TRANSFER " + d.filename + " from " + d.source + " to " + d.destination + location
    case ApiCallItem(url, verb, _, _, _) =>
      "API_CALL " + verb + " " + url + location
  }

  /** Every finding line ends with the closing parenthesis of the language tag. */
  lemma RenderItemEndsWithParen(item: DslItem)
    ensures var line := RenderItem(item); line != [] && line[|line| - 1] == ')'
  {
  }

  /** The first word of a DSL line names the kind of finding, and the words
      after it are the finding's own fields, in the documented order. */
  lemma RenderItemFields(item: DslItem)
    ensures item.LftpTransferItem? ==>
      StartsWith(RenderItem(item), "LFTP_TRANSFER " + item.details.filename + " from " + item.details.source
                                   + " to " + item.details.destination + " at " + item.file + ":")
    ensures item.ApiCallItem? ==>
      StartsWith(RenderItem(item), "API_CALL " + item.verb + " " + item.url + " at " + item.file + ":")
  {
    var location := " at " + item.file + ":" + IntToString(item.line) + " (" + item.language + ")";
    match item
    case LftpTransferItem(d, _, _, _) =>
      var head := "LFTP_TRANSFER " + d.filename + " from " + d.source + " to " + d.destination;
      assert RenderItem(item) == head + location;
      assert (head + location)[..|head + " at " + item.file + ":"|] == head + " at " + item.file + ":";
    case ApiCallItem(url, verb, _, _, _) =>
      var head := "API_CALL " + verb + " " + url;
      assert RenderItem(item) == head + location;
      assert (head + location)[..|head + " at " + item.file + ":"|] == head + " at " + item.file + ":";
  }

  /** The finding lines, one per finding in order. */
  function ItemLines(items: seq<DslItem>): (lines: seq<string>)
    ensures |lines| == |items|
  {
    if items == [] then []
    else ItemLines(items[..|items| - 1]) + [RenderItem(items[|items| - 1])]
  }

  /** Line `k` of the finding lines renders finding `k`. */
  lemma {:induction false} ItemLinesAt(items: seq<DslItem>, k: int)
    requires 0 <= k < |items|
    ensures ItemLines(items)[k] == RenderItem(items[k])
    decreases |items|
  {
    if k < |items| - 1 {
      ItemLinesAt(items[..|items| - 1], k);
    }
  }

  /** `dsl_lines` after the loop: the header, then the finding lines. */
  function DslLines(items: seq<DslItem>): seq<string> {
    [DslHeader] + ItemLines(items)
  }

  /** The DSL text starts with the header and does not end with a line break. */
  lemma DslContentShape(items: seq<DslItem>)
    ensures var content := JoinWith(DslLines(items), "\n");
      StartsWith(content, DslHeader) && content != [] && content[|content| - 1] != '\n'
  {
    var lines := DslLines(items);
    JoinWithStartsWithFirst(lines, "\n");
    if items != [] {
      RenderItemEndsWithParen(items[|items| - 1]);
    }
    JoinWithEndsWithLast(lines, "\n");
  }

  /** No field of the finding holds a line break. */
  predicate SingleLineFields(item: DslItem) {
    && '\n' !in item.file && '\n' !in item.language
    && match item
       case LftpTransferItem(d, _, _, _) => '\n' !in d.filename && '\n' !in d.source && '\n' !in d.destination
       case ApiCallItem(url, verb, _, _, _) => '\n' !in url && '\n' !in verb
  }

  /** A finding whose fields are single-line renders to a single line. */
  lemma RenderItemSingleLine(item: DslItem)
    requires SingleLineFields(item)
    ensures '\n' !in RenderItem(item)
  {
    IntToStringChars(item.line);
  }

  /** Single-line findings give single-line finding lines. */
  lemma {:induction false} ItemLinesSingleLine(items: seq<DslItem>)
    requires forall k | 0 <= k < |items| :: SingleLineFields(items[k])
    ensures forall k | 0 <= k < |ItemLines(items)| :: '\n' !in ItemLines(items)[k]
  {
    if items != [] {
      ItemLinesSingleLine(items[..|items| - 1]);
      RenderItemSingleLine(items[|items| - 1]);
    }
  }

  /** Splitting the DSL text at line breaks gives back the header and the
      finding lines, so there are exactly as many lines as findings plus one. */
  lemma DslContentLines(items: seq<DslItem>)
    requires forall k | 0 <= k < |items| :: SingleLineFields(items[k])
    ensures SplitOn(JoinWith(DslLines(items), "\n"), '\n') == DslLines(items)
    ensures |SplitOn(JoinWith(DslLines(items), "\n"), '\n')| == |items| + 1
  {
    DslLinesSingleLine(items);
    SplitOnJoin(DslLines(items), '\n');
    assert |DslLines(items)| == |items| + 1;
  }

  /** The header and, for single-line findings, every finding line are free
      of line breaks. */
  lemma DslLinesSingleLine(items: seq<DslItem>)
    requires forall k | 0 <= k < |items| :: SingleLineFields(items[k])
    ensures forall k | 0 <= k < |DslLines(items)| :: '\n' !in DslLines(items)[k]
  {
    ItemLinesSingleLine(items);
    HeaderSingleLine();
    PrependSingleLine(DslHeader, ItemLines(items));
  }

  lemma PrependSingleLine(first: string, rest: seq<string>)
    requires '\n' !in first
    requires forall k | 0 <= k < |rest| :: '\n' !in rest[k]
    ensures forall k | 0 <= k < |[first] + rest| :: '\n' !in ([first] + rest)[k]
  {
    assert forall k | 1 <= k < |[first] + rest| :: ([first] + rest)[k] == rest[k - 1];
  }

  lemma HeaderSingleLine()
    ensures '\n' !in DslHeader
  {
  }

  /** `details["lftp_transfers"]` as it follows from `dsl_output`. */
  function TransfersOf(items: seq<DslItem>): seq<LftpDetails> {
    if items == [] then []
    else
      var last := items[|items| - 1];
      TransfersOf(items[..|items| - 1]) + (if last.LftpTransferItem? then [last.details] else [])
  }

  /** `details["api_calls"]` as it follows from `dsl_output`. */
  function ApiCallsOf(items: seq<DslItem>): seq<ApiCallDetails> {
    if items == [] then []
    else
      var last := items[|items| - 1];
      ApiCallsOf(items[..|items| - 1]) + (if last.ApiCallItem? then [ApiCallDetails(last.url, last.verb)] else [])
  }

  /** Every finding is recorded in exactly one of the two detail lists. */
  lemma {:induction false} DetailCountsAgree(items: seq<DslItem>)
    ensures |TransfersOf(items)| + |ApiCallsOf(items)| == |items|
  {
    if items != [] {
      DetailCountsAgree(items[..|items| - 1]);
    }
  }

  /** The lftp findings of the .NET pass: one per match whose text held a
      quoted lftp command, on the line the match starts. */
  function DotnetLftpItems(code: string, file: string, matches: seq<LftpMatch>): seq<DslItem> {
    if matches == [] then []
    else
      var m := matches[|matches| - 1];
      DotnetLftpItems(code, file, matches[..|matches| - 1])
        + (if m.command.Some? then [LftpTransferItem(ParseLftpCommand(m.command.value), file, LineNumber(code, m.start), "csharp")] else [])
  }

  /** The API-call findings of the .NET pass: one per match, on the line the
      match starts. */
  function DotnetApiItems(code: string, file: string, matches: seq<ApiMatch>): seq<DslItem> {
    if matches == [] then []
    else
      var m := matches[|matches| - 1];
      DotnetApiItems(code, file, matches[..|matches| - 1])
        + [ApiCallItem(m.url, DotnetMethod(m.text), file, LineNumber(code, m.start), "csharp")]
  }

  lemma DotnetLftpItemsStep(code: string, file: string, matches: seq<LftpMatch>, i: nat)
    requires i < |matches|
    ensures DotnetLftpItems(code, file, matches[..i + 1])
         == DotnetLftpItems(code, file, matches[..i]) + DotnetLftpItems(code, file, [matches[i]])
  {
    assert matches[..i + 1][..i] == matches[..i];
  }

  /** How many matches held a quoted lftp command. */
  function CommandCount(matches: seq<LftpMatch>): (n: nat)
    ensures n <= |matches|
  {
    if matches == [] then 0
    else CommandCount(matches[..|matches| - 1]) + (if matches[|matches| - 1].command.Some? then 1 else 0)
  }

  /** The lftp findings are transfers tagged "csharp", at most one per match,
      and exactly one per match that held a command. */
  lemma {:induction false} DotnetLftpItemsShape(code: string, file: string, matches: seq<LftpMatch>)
    ensures var items := DotnetLftpItems(code, file, matches);
      && |items| == CommandCount(matches) <= |matches|
      && ((forall k | 0 <= k < |matches| :: matches[k].command.Some?) ==> |items| == |matches|)
      && forall k | 0 <= k < |items| :: items[k].LftpTransferItem? && items[k].language == "csharp"
  {
    if matches != [] {
      DotnetLftpItemsShape(code, file, matches[..|matches| - 1]);
    }
  }

  /** The API findings are one per match, in order: the match's URL, the
      method its text implies, and the line the match starts on. */
  lemma {:induction false} DotnetApiItemsShape(code: string, file: string, matches: seq<ApiMatch>)
    ensures var items := DotnetApiItems(code, file, matches);
      && |items| == |matches|
      && forall k | 0 <= k < |items| ::
           items[k] == ApiCallItem(matches[k].url, DotnetMethod(matches[k].text), file, LineNumber(code, matches[k].start), "csharp")
  {
    if matches != [] {
      DotnetApiItemsShape(code, file, matches[..|matches| - 1]);
    }
  }

  /** One match of the `Process.Start(...lftp...)` pattern: where it starts
      and the quoted string holding "lftp" inside it, if there is one. */
  datatype LftpMatch = LftpMatch(start: nat, command: Option<string>)

  /** The scanner's collected state: `dsl_output` and the two lists of
      `details`. (`files_scanned` and `errors` belong to the file-reading
      code, which is not modelled.) */
  class DependencyScanner {
    var dslOutput: seq<DslItem>
    var lftpTransfers: seq<LftpDetails>
    var apiCalls: seq<ApiCallDetails>

    /** Every finding is paired with its entry in the matching details list. */
    ghost predicate Valid()
      reads this
    {
      lftpTransfers == TransfersOf(dslOutput) && apiCalls == ApiCallsOf(dslOutput)
    }

    constructor ()
      ensures Valid() && dslOutput == []
    {
      dslOutput, lftpTransfers, apiCalls := [], [], [];
    }

    /** One lftp finding: the command is parsed, and the same details go
        both into `dsl_output` and into `details["lftp_transfers"]`. */
    method RecordLftpTransfer(command: string, file: string, line: int, language: string)
      requires Valid()
      modifies this
      ensures Valid()
      ensures dslOutput == old(dslOutput) + [LftpTransferItem(ParseLftpCommand(command), file, line, language)]
      ensures lftpTransfers == old(lftpTransfers) + [ParseLftpCommand(command)] && apiCalls == old(apiCalls)
    {
      var transferDetails := ParseLftpCommand(command);
      var item := LftpTransferItem(transferDetails, file, line, language);
      assert (dslOutput + [item])[..|dslOutput|] == dslOutput;
      dslOutput := dslOutput + [item];
      lftpTransfers := lftpTransfers + [transferDetails];
    }

    /** One API-call finding, recorded in `dsl_output` and in `details["api_calls"]`. */
    method RecordApiCall(url: string, verb: string, file: string, line: int, language: string)
      requires Valid()
      modifies this
      ensures Valid()
      ensures dslOutput == old(dslOutput) + [ApiCallItem(url, verb, file, line, language)]
      ensures apiCalls == old(apiCalls) + [ApiCallDetails(url, verb)] && lftpTransfers == old(lftpTransfers)
    {
      var item := ApiCallItem(url, verb, file, line, language);
      assert (dslOutput + [item])[..|dslOutput|] == dslOutput;
      dslOutput := dslOutput + [item];
      apiCalls := apiCalls + [ApiCallDetails(url, verb)];
    }

    /** `_analyze_dotnet_code` after the regular expressions have run: first
        the lftp matches, then the HttpClient matches, each recorded with
        its line number and the "csharp" language tag. */
    method AnalyzeDotnetCode(code: string, file: string, lftpMatches: seq<LftpMatch>, apiMatches: seq<ApiMatch>)
      requires Valid()
      modifies this
      ensures Valid()
      ensures dslOutput == old(dslOutput) + DotnetLftpItems(code, file, lftpMatches) + DotnetApiItems(code, file, apiMatches)
    {
      RecordDotnetLftpMatches(code, file, lftpMatches);
      RecordDotnetApiMatches(code, file, apiMatches);
    }

    /** The loop over the `Process.Start(...lftp...)` matches. */
    method RecordDotnetLftpMatches(code: string, file: string, matches: seq<LftpMatch>)
      requires Valid()
      modifies this
      ensures Valid()
      ensures dslOutput == old(dslOutput) + DotnetLftpItems(code, file, matches)
    {
      var i := 0;
      while i < |matches|
        invariant 0 <= i <= |matches|
        invariant Valid()
        invariant dslOutput == old(dslOutput) + DotnetLftpItems(code, file, matches[..i])
      {
        DotnetLftpItemsStep(code, file, matches, i);
        RecordDotnetLftpMatch(code, file, matches[i]);
        i := i + 1;
      }
      assert matches[..i] == matches;
    }

    /** One iteration: a match that holds a quoted command is recorded on
        the line it starts; one without is skipped. */
    method RecordDotnetLftpMatch(code: string, file: string, m: LftpMatch)
      requires Valid()
      modifies this
      ensures Valid()
      ensures dslOutput == old(dslOutput) + DotnetLftpItems(code, file, [m])
    {
      var lineNum := LineNumber(code, m.start);
      if m.command.Some? {
        RecordLftpTransfer(m.command.value, file, lineNum, "csharp");
      }
      assert [m][..0] == [];
    }

    /** The loop over the HttpClient matches. */
    method RecordDotnetApiMatches(code: string, file: string, matches: seq<ApiMatch>)
      requires Valid()
      modifies this
      ensures Valid()
      ensures dslOutput == old(dslOutput) + DotnetApiItems(code, file, matches)
    {
      var i := 0;
      while i < |matches|
        invariant 0 <= i <= |matches|
        invariant Valid()
        invariant dslOutput == old(dslOutput) + DotnetApiItems(code, file, matches[..i])
      {
        var m := matches[i];
        var lineNum := LineNumber(code, m.start);
        var verb := DotnetMethod(m.text);
        RecordApiCall(m.url, verb, file, lineNum, "csharp");
        assert matches[..i + 1][..i] == matches[..i];
        i := i + 1;
      }
      assert matches[..i] == matches;
    }

    /** `_create_dsl_content`: the header, one line per finding in order,
        joined with line breaks. */
    method CreateDslContent() returns (content: string)
      ensures content == JoinWith(DslLines(dslOutput), "\n")
    {
      var dslLines := [DslHeader];
      var i := 0;
      while i < |dslOutput|
        invariant 0 <= i <= |dslOutput|
        invariant dslLines == [DslHeader] + ItemLines(dslOutput[..i])
      {
        assert dslOutput[..i + 1][..i] == dslOutput[..i];
        dslLines := dslLines + [RenderItem(dslOutput[i])];
        i := i + 1;
      }
      assert dslOutput[..i] == dslOutput;
      content := JoinWith(dslLines, "\n");
    }
  }
}
