/** The browser extension's list of allowed origins
    (app/browser-extension/src/extension-config.js). */
module OriginPatterns {
  import opened Prelude
  import opened Text
  import opened UrlHosts

  /** What the program takes from the language: `toLowerCase` and `trim`. */
  datatype Alphabet = Alphabet(lower: char -> string, isBlank: char -> bool)

  /** `http(s)://host` with an optional port. */
  datatype Pattern = Pattern(secure: bool, host: string, port: Option<string>)

  /** A parsed URL. The port is empty where it is the protocol's own. */
  datatype Url = Url(protocol: string, hostname: string, port: string)

  datatype Entry = Text(text: string) | NotAString

  datatype Setting = Lines(text: string) | List(entries: seq<Entry>) | NotAList

  datatype Error = NoList | NoString | TooBroad | BadPattern | BadHost | BadPort | NoPattern

  const FILES := "file://*"

  predicate IsPatternChar(c: char) {
    IsHostChar(c) || c == '*' || c == ':' || c == '/'
  }

  /** The characters of a pattern are lower case and no blanks. */
  ghost predicate Sane(alphabet: Alphabet) {
    forall c :: IsPatternChar(c) ==> alphabet.lower(c) == [c] && !alphabet.isBlank(c)
  }

  // ---------------------------------------------------------------- one pattern

  function Scheme(secure: bool): string {
    if secure then "https" else "http"
  }

  function Rest(pattern: Pattern): string {
    if pattern.port.Some? then pattern.host + ":" + pattern.port.value else pattern.host
  }

  function Show(pattern: Pattern): string {
    Scheme(pattern.secure) + "://" + Rest(pattern)
  }

  predicate AllowedHost(host: string) {
    && host != "*" && host != ""
    && var name := if "*." <= host then host[2..] else host;
       name == "localhost" || ((forall c :: c in name ==> IsHostChar(c)) && '.' in name)
  }

  predicate AllowedPort(port: string) {
    port == "*" || (1 <= |port| <= 5 && forall c :: c in port ==> '0' <= c <= '9')
  }

  predicate Valid(pattern: Pattern) {
    AllowedHost(pattern.host) && (pattern.port.Some? ==> AllowedPort(pattern.port.value))
  }

  function StripSlashes(s: string): (r: string)
    ensures r <= s
  {
    if s != "" && s[|s| - 1] == '/' then StripSlashes(s[..|s| - 1]) else s
  }

  function Clean(alphabet: Alphabet, s: string): string {
    StripSlashes(Lowered(alphabet.lower, Trim(alphabet.isBlank, s)))
  }

  function LastColon(s: string): (r: int)
    ensures -1 <= r < |s|
    ensures 0 <= r ==> s[r] == ':'
  {
    if s == "" then -1 else if s[|s| - 1] == ':' then |s| - 1 else LastColon(s[..|s| - 1])
  }

  /** `^(https?)://(.*)$` */
  function SplitScheme(s: string): (r: Option<(bool, string)>)
    ensures r.Some? ==> s == Scheme(r.value.0) + "://" + r.value.1
  {
    if "https://" <= s then Some((true, s[8..])) else if "http://" <= s then Some((false, s[7..])) else None
  }

  predicate IsBroad(cleaned: string) {
    cleaned == "<all_urls>" || cleaned == "*://*/*" || cleaned == "http://*" || cleaned == "https://*"
  }

  /** Host and port, parted at the last colon unless that comes first. */
  function AtLastColon(secure: bool, hostPort: string): (pattern: Pattern)
    ensures Rest(pattern) == hostPort
  {
    var colon := LastColon(hostPort);
    if colon > 0 then Pattern(secure, hostPort[..colon], Some(hostPort[colon + 1..])) else Pattern(secure, hostPort, None)
  }

  function Check(pattern: Pattern): Result<string, Error> {
    if !AllowedHost(pattern.host) then Failure(BadHost)
    else if pattern.port.Some? && !AllowedPort(pattern.port.value) then Failure(BadPort)
    else Success(Show(pattern))
  }

  function Read(cleaned: string): Result<string, Error> {
    if IsBroad(cleaned) then Failure(TooBroad)
    else if cleaned == FILES then Success(FILES)
    else match SplitScheme(cleaned)
      case None => Failure(BadPattern)
      case Some((secure, hostPort)) =>
        if hostPort == "" || '/' in hostPort then Failure(BadPattern) else Check(AtLastColon(secure, hostPort))
  }

  /** None where nothing is left after cleaning. */
  function NormalizePattern(alphabet: Alphabet, value: string): Result<Option<string>, Error> {
    var cleaned := Clean(alphabet, value);
    if cleaned == "" then Success(None)
    else match Read(cleaned)
      case Failure(error) => Failure(error)
      case Success(pattern) => Success(Some(pattern))
  }

  /** What a normalised pattern looks like. */
  ghost predicate Canonical(s: string) {
    s == FILES || exists pattern :: Valid(pattern) && s == Show(pattern)
  }

  // ---------------------------------------------------------------- the matcher

  /** Host and port, parted at the first colon. */
  function AtFirstStop(secure: bool, hostPort: string): Option<Pattern> {
    var stop := FirstStop(hostPort);
    if stop == 0 then None
    else if stop == |hostPort| then Some(Pattern(secure, hostPort, None))
    else
      var port := hostPort[stop + 1..];
      if hostPort[stop] == '/' || port == "" || '/' in port then None
      else Some(Pattern(secure, hostPort[..stop], Some(port)))
  }

  /** The matcher's own reading: `^(https?)://([^/:]+)(?::([^/]+))?$` */
  function MatcherRead(s: string): Option<Pattern> {
    match SplitScheme(s)
    case None => None
    case Some((secure, hostPort)) => AtFirstStop(secure, hostPort)
  }

  /** The length of the longest start without a slash or colon. */
  function FirstStop(s: string): (n: nat)
    ensures n <= |s| && ':' !in s[..n] && '/' !in s[..n]
    ensures n < |s| ==> s[n] == ':' || s[n] == '/'
  {
    if s == "" || s[0] == ':' || s[0] == '/' then 0
    else
      var n := FirstStop(s[1..]);
      assert s[..n + 1] == [s[0]] + s[1..][..n];
      n + 1
  }

  predicate EndsWith(s: string, suffix: string) {
    |suffix| <= |s| && s[|s| - |suffix|..] == suffix
  }

  predicate HostMatches(pattern: string, hostname: string) {
    if "*." <= pattern then EndsWith(hostname, "." + pattern[2..]) else pattern == hostname
  }

  function Protocol(secure: bool): string {
    if secure then "https:" else "http:"
  }

  predicate Covers(pattern: Pattern, url: Url) {
    && Protocol(pattern.secure) == url.protocol
    && HostMatches(pattern.host, url.hostname)
    && !(pattern.port.Some? && pattern.port.value != "*" && pattern.port.value != url.port)
  }

  predicate OriginMatches(origin: string, url: Url) {
    if origin == FILES then url.protocol == "file:"
    else if url.protocol != Protocol(false) && url.protocol != Protocol(true) then false
    else MatcherRead(origin).Some? && Covers(MatcherRead(origin).value, url)
  }

  // ---------------------------------------------------------------- the list

  predicate IsSeparator(c: char) {
    c == '\n' || c == ','
  }

  function SkipSeparators(s: string): (r: string)
    ensures |r| <= |s|
  {
    if s != "" && IsSeparator(s[0]) then SkipSeparators(s[1..]) else s
  }

  /** `(piece + s).split(/[\n,]+/)`, where `piece` holds no separator. */
  function Split(s: string, piece: string): seq<string>
    decreases |s|
  {
    if s == "" then [piece]
    else if !IsSeparator(s[0]) then Split(s[1..], piece + [s[0]])
    else [piece] + Split(SkipSeparators(s[1..]), "")
  }

  function Texts(ss: seq<string>): (r: seq<Entry>)
    ensures |r| == |ss|
  {
    if ss == [] then [] else Texts(ss[..|ss| - 1]) + [Text(ss[|ss| - 1])]
  }

  function Entries(setting: Setting): Option<seq<Entry>> {
    match setting
    case Lines(text) => Some(Texts(Split(text, "")))
    case List(entries) => Some(entries)
    case NotAList => None
  }

  type Normalizer = string -> Result<Option<string>, Error>

  function NormalizeEntry(normalize: Normalizer, entry: Entry): Result<Option<string>, Error> {
    if entry.Text? then normalize(entry.text) else Failure(NoString)
  }

  function AddEntry(patterns: Result<seq<string>, Error>, entry: Result<Option<string>, Error>): Result<seq<string>, Error> {
    if patterns.Failure? then patterns
    else if entry.Failure? then Failure(entry.error)
    else if entry.value.None? then patterns
    else Success(patterns.value + [entry.value.value])
  }

  /** The normalised entries in order, empty ones left out, or the first failure. */
  function Patterns(normalize: Normalizer, entries: seq<Entry>): Result<seq<string>, Error> {
    if entries == [] then Success([])
    else AddEntry(Patterns(normalize, entries[..|entries| - 1]), NormalizeEntry(normalize, entries[|entries| - 1]))
  }

  function Listed(patterns: Result<seq<string>, Error>): Result<seq<string>, Error> {
    if patterns.Failure? then patterns
    else if patterns.value == [] then Failure(NoPattern)
    else Success(Unique(patterns.value))
  }

  function PatternsOf(alphabet: Alphabet, setting: Setting): Result<seq<string>, Error> {
    match Entries(setting)
    case None => Failure(NoList)
    case Some(entries) => Patterns(s => NormalizePattern(alphabet, s), entries)
  }

  function Normalized(alphabet: Alphabet, setting: Setting): Result<seq<string>, Error> {
    Listed(PatternsOf(alphabet, setting))
  }

  method NormalizeAllowedOrigins(alphabet: Alphabet, setting: Setting) returns (result: Result<seq<string>, Error>)
    ensures result == Normalized(alphabet, setting)
  {
    var rawPatterns := Entries(setting);
    if rawPatterns.None? {
      return Failure(NoList);
    }
    result := CollectPatterns(s => NormalizePattern(alphabet, s), rawPatterns.value);
  }

  method CollectPatterns(normalize: Normalizer, rawPatterns: seq<Entry>) returns (result: Result<seq<string>, Error>)
    ensures result == Listed(Patterns(normalize, rawPatterns))
  {
    var normalized: seq<string>, seen: set<string> := [], {};
    ghost var patterns: seq<string> := [];
    for i := 0 to |rawPatterns|
      invariant Patterns(normalize, rawPatterns[..i]) == Success(patterns)
      invariant normalized == Unique(patterns)
      invariant forall x :: x in seen <==> x in normalized
    {
      assert rawPatterns[..i + 1][..i] == rawPatterns[..i];
      var entry := NormalizeEntry(normalize, rawPatterns[i]);
      assert Patterns(normalize, rawPatterns[..i + 1]) == AddEntry(Success(patterns), entry);
      if entry.Failure? {
        FirstFailureStands(normalize, rawPatterns, i + 1);
        return Failure(entry.error);
      }
      if entry.value.None? {
        continue;
      }
      var pattern := entry.value.value;
      UniqueOfMore(patterns, pattern);
      patterns := patterns + [pattern];
      if pattern !in seen {
        normalized := normalized + [pattern];
        seen := seen + {pattern};
      }
    }
    assert rawPatterns[..|rawPatterns|] == rawPatterns;
    return if normalized == [] then Failure(NoPattern) else Success(normalized);
  }

  /** None for a text that is not a URL. */
  function UrlIsAllowed(alphabet: Alphabet, url: Option<Url>, setting: Setting): Result<bool, Error> {
    if url.None? then Success(false)
    else match Normalized(alphabet, setting)
      case Failure(error) => Failure(error)
      case Success(origins) => Success(exists origin :: origin in origins && OriginMatches(origin, url.value))
  }

  lemma {:induction false} FirstFailureStands(normalize: Normalizer, entries: seq<Entry>, n: nat)
    requires n <= |entries| && Patterns(normalize, entries[..n]).Failure?
    ensures Patterns(normalize, entries) == Patterns(normalize, entries[..n])
  {
    if n == |entries| {
      assert entries[..n] == entries;
    } else {
      assert entries[..|entries| - 1][..n] == entries[..n];
      FirstFailureStands(normalize, entries[..|entries| - 1], n);
    }
  }

  // ---------------------------------------------------------------- reading and showing

  lemma ValidChars(pattern: Pattern)
    requires Valid(pattern)
    ensures forall c :: c in pattern.host ==> IsHostChar(c) || c == '*'
    ensures pattern.host != "" && ':' !in pattern.host && '/' !in pattern.host
    ensures pattern.port.Some? ==>
              pattern.port.value != "" && forall c :: c in pattern.port.value ==> '0' <= c <= '9' || c == '*'
  {
  }

  lemma {:induction false} LastColonIs(s: string, n: nat)
    requires n < |s| && s[n] == ':' && ':' !in s[n + 1..]
    ensures LastColon(s) == n
  {
    var last := |s| - 1;
    if n < last {
      assert s[last] in s[n + 1..] && s[..last][n + 1..] == s[n + 1..][..last - n - 1];
      LastColonIs(s[..last], n);
    }
  }

  lemma {:induction false} FirstStopIs(s: string, n: nat)
    requires n <= |s| && ':' !in s[..n] && '/' !in s[..n] && (n < |s| ==> s[n] == ':')
    ensures FirstStop(s) == n
  {
  }

  lemma RestParts(pattern: Pattern)
    ensures Rest(pattern)[..|pattern.host|] == pattern.host
    ensures pattern.port.None? ==> |Rest(pattern)| == |pattern.host|
    ensures pattern.port.Some? ==>
              |Rest(pattern)| > |pattern.host| && Rest(pattern)[|pattern.host|] == ':' &&
              Rest(pattern)[|pattern.host| + 1..] == pattern.port.value
  {
  }

  lemma PartedFirst(pattern: Pattern)
    requires Valid(pattern)
    ensures AtFirstStop(pattern.secure, Rest(pattern)) == Some(pattern)
  {
    ValidChars(pattern);
    RestParts(pattern);
    FirstStopIs(Rest(pattern), |pattern.host|);
  }

  lemma PartedLast(pattern: Pattern)
    requires Valid(pattern)
    ensures AtLastColon(pattern.secure, Rest(pattern)) == pattern
  {
    ValidChars(pattern);
    RestParts(pattern);
    if pattern.port.Some? {
      LastColonIs(Rest(pattern), |pattern.host|);
    }
  }

  lemma SchemeOfShow(pattern: Pattern)
    ensures SplitScheme(Show(pattern)) == Some((pattern.secure, Rest(pattern)))
  {
    var shown := Show(pattern);
    if pattern.secure {
      assert shown[..8] == "https://" && shown[8..] == Rest(pattern);
    } else {
      assert shown[..7] == "http://" && shown[7..] == Rest(pattern);
      assert shown[4] == ':';
    }
  }

  /** Reading a shown pattern, by the normaliser or by the matcher, gives the pattern back. */
  lemma ReadShown(pattern: Pattern)
    requires Valid(pattern)
    ensures Read(Show(pattern)) == Success(Show(pattern))
    ensures MatcherRead(Show(pattern)) == Some(pattern)
  {
    SchemeOfShow(pattern);
    PartedFirst(pattern);
    PartedLast(pattern);
    NotBroad(pattern);
    RestChars(pattern);
  }

  lemma RestChars(pattern: Pattern)
    requires Valid(pattern)
    ensures var rest := Rest(pattern);
            rest != "" && '/' !in rest && forall c :: c in rest ==> IsHostChar(c) || c == '*' || c == ':'
  {
    ValidChars(pattern);
  }

  lemma NotBroad(pattern: Pattern)
    requires Valid(pattern)
    ensures !IsBroad(Show(pattern)) && Show(pattern) != FILES
  {
    var shown, rest := Show(pattern), Rest(pattern);
    RestChars(pattern);
    assert shown[0] == 'h' && shown[4] == if pattern.secure then 's' else ':';
    assert shown[|shown| - 1] == rest[|rest| - 1];
    ValidChars(pattern);
    assert |rest| == 1 ==> rest == pattern.host;
  }

  /** The normaliser's reading accepts exactly the canonical texts, and keeps them as they are. */
  lemma ReadMeaning(cleaned: string)
    ensures Read(cleaned).Success? <==> Canonical(cleaned)
    ensures Read(cleaned).Success? ==> Read(cleaned).value == cleaned
  {
    if Canonical(cleaned) && cleaned != FILES {
      var pattern :| Valid(pattern) && cleaned == Show(pattern);
      ReadShown(pattern);
    }
    if Read(cleaned).Success? && cleaned != FILES {
      var (secure, hostPort) := SplitScheme(cleaned).value;
      assert cleaned == Show(AtLastColon(secure, hostPort));
    }
  }

  lemma ShowChars(pattern: Pattern)
    requires Valid(pattern)
    ensures var shown := Show(pattern);
            shown[|shown| - 1] != '/' && forall c :: c in shown ==> IsPatternChar(c)
  {
    RestChars(pattern);
    SchemeChars(pattern.secure);
    var shown, start, rest := Show(pattern), Scheme(pattern.secure) + "://", Rest(pattern);
    assert shown == start + rest && shown[|shown| - 1] == rest[|rest| - 1];
    assert rest[|rest| - 1] in rest;
    forall c | c in shown
      ensures IsPatternChar(c)
    {
      assert c in start || c in rest;
    }
  }

  lemma SchemeChars(secure: bool)
    ensures forall c :: c in Scheme(secure) + "://" ==> IsPatternChar(c)
  {
  }

  lemma CanonicalChars(s: string)
    requires Canonical(s)
    ensures forall c :: c in s ==> IsPatternChar(c)
    ensures s != "" && s[|s| - 1] != '/'
  {
    if s != FILES {
      var pattern :| Valid(pattern) && s == Show(pattern);
      ShowChars(pattern);
    }
  }

  lemma PatternIsLower(alphabet: Alphabet, value: string)
    requires Sane(alphabet) && forall c :: c in value ==> IsPatternChar(c)
    ensures Lowered(alphabet.lower, value) == value
  {
    LoweredIsSame(alphabet.lower, value);
  }

  lemma PatternIsTrimmed(alphabet: Alphabet, value: string)
    requires Sane(alphabet) && value != "" && forall c :: c in value ==> IsPatternChar(c)
    ensures Trim(alphabet.isBlank, value) == value
  {
    assert value[0] in value && value[|value| - 1] in value;
  }

  lemma CanonicalIsClean(alphabet: Alphabet, value: string)
    requires Sane(alphabet) && Canonical(value)
    ensures value != "" && Clean(alphabet, value) == value
  {
    CanonicalChars(value);
    PatternIsTrimmed(alphabet, value);
    PatternIsLower(alphabet, value);
  }

  /** Normalising is cleaning and then checking: what comes out is canonical, and a canonical
      text comes out unchanged. */
  lemma NormalizePatternMeaning(alphabet: Alphabet, value: string)
    requires Sane(alphabet)
    ensures var cleaned := Clean(alphabet, value);
            && (NormalizePattern(alphabet, value).Success? <==> cleaned == "" || Canonical(cleaned))
            && (Canonical(cleaned) ==> NormalizePattern(alphabet, value) == Success(Some(cleaned)))
            && (cleaned == "" ==> NormalizePattern(alphabet, value) == Success(None))
    ensures Canonical(value) ==> Clean(alphabet, value) == value
  {
    var cleaned := Clean(alphabet, value);
    ReadMeaning(cleaned);
    if Canonical(cleaned) {
      CanonicalIsClean(alphabet, cleaned);
    }
    if Canonical(value) {
      CanonicalIsClean(alphabet, value);
    }
  }

  predicate IsHostLetter(c: char) {
    c in "abcdefghijklmnopqrstuvwxyz" || c in "0123456789" || c in ".-"
  }

  /** `localhost` or a name with a dot, perhaps behind a wildcard. */
  predicate IsHostText(host: string) {
    var name := if |host| > 1 && host[0] == '*' && host[1] == '.' then host[2..] else host;
    name == "localhost" || ('.' in name && forall c :: c in name ==> IsHostLetter(c))
  }

  /** No port, a star, or up to five digits. */
  predicate IsPortText(port: Option<string>) {
    || port == None || port == Some("*")
    || (1 <= |port.value| <= 5 && forall c :: c in port.value ==> c in "0123456789")
  }

  lemma WildcardMeaning(host: string)
    ensures "*." <= host <==> |host| > 1 && host[0] == '*' && host[1] == '.'
  {
  }

  lemma HostTextMeaning(host: string)
    ensures AllowedHost(host) <==> IsHostText(host)
  {
    WildcardMeaning(host);
    forall c
      ensures IsHostChar(c) <==> IsHostLetter(c)
    {
      HostChars(c);
    }
    assert '.' !in "*" && '.' !in "";
  }

  lemma PortTextMeaning(port: string)
    ensures AllowedPort(port) <==> IsPortText(Some(port))
  {
    forall c
      ensures '0' <= c <= '9' <==> c in "0123456789"
    {
      DigitChars(c);
    }
  }

  lemma CanonicalIs(s: string)
    ensures Canonical(s) <==>
            || s == "file://*"
            || exists pattern: Pattern :: IsHostText(pattern.host) && IsPortText(pattern.port) && s == Show(pattern)
  {
    forall pattern: Pattern
      ensures Valid(pattern) <==> IsHostText(pattern.host) && IsPortText(pattern.port)
    {
      HostTextMeaning(pattern.host);
      if pattern.port.Some? {
        PortTextMeaning(pattern.port.value);
      }
    }
  }

  /** What is accepted, told by its text: the entry for files, or a scheme, a host and perhaps a
      port. */
  lemma WhatIsAccepted(alphabet: Alphabet, value: string)
    requires Sane(alphabet) && Clean(alphabet, value) != ""
    ensures var (cleaned, result) := (Clean(alphabet, value), NormalizePattern(alphabet, value));
            && (result.Success? ==> result == Success(Some(cleaned)))
            && (result.Success? <==>
                || cleaned == "file://*"
                || exists pattern: Pattern :: IsHostText(pattern.host) && IsPortText(pattern.port) &&
                                              cleaned == Show(pattern))
  {
    NormalizePatternMeaning(alphabet, value);
    CanonicalIs(Clean(alphabet, value));
  }

  lemma BroadIsRefused(cleaned: string)
    ensures Read(cleaned) == Failure(TooBroad) <==> IsBroad(cleaned)
  {
  }

  lemma BroadIs(cleaned: string)
    ensures IsBroad(cleaned) <==>
            cleaned == "<all_urls>" || cleaned == "*://*/*" || cleaned == "http://*" || cleaned == "https://*"
    ensures IsBroad(cleaned) ==> |cleaned| > 0
  {
  }

  /** And what is refused as too broad. */
  lemma WhatIsTooBroad(alphabet: Alphabet, value: string)
    ensures var cleaned := Clean(alphabet, value);
            NormalizePattern(alphabet, value) == Failure(TooBroad) <==>
            cleaned == "<all_urls>" || cleaned == "*://*/*" || cleaned == "http://*" || cleaned == "https://*"
  {
    BroadIsRefused(Clean(alphabet, value));
    BroadIs(Clean(alphabet, value));
  }

  /** How a pattern is spelt. */
  lemma SpelledOut(secure: bool, host: string, port: Option<string>)
    ensures Show(Pattern(secure, host, port)) ==
            (if secure then "https" else "http") + "://" + if port == None then host else host + ":" + port.value
  {
  }

  /** A text that is no URL is never allowed, whatever the list. */
  lemma NoUrlIsAllowed(alphabet: Alphabet, setting: Setting)
    ensures UrlIsAllowed(alphabet, None, setting) == Success(false)
  {
  }

  // ---------------------------------------------------------------- the normalised list

  /** A normaliser that answers canonical texts only, and those unchanged. */
  ghost predicate Keeps(normalize: Normalizer) {
    && (forall s :: normalize(s).Success? && normalize(s).value.Some? ==> Canonical(normalize(s).value.value))
    && (forall s :: Canonical(s) ==> normalize(s) == Success(Some(s)))
  }

  lemma NormalizerKeeps(alphabet: Alphabet)
    requires Sane(alphabet)
    ensures Keeps(s => NormalizePattern(alphabet, s))
  {
    forall s {
      NormalizePatternKeeps(alphabet, s);
    }
  }

  lemma NormalizePatternKeeps(alphabet: Alphabet, s: string)
    requires Sane(alphabet)
    ensures var r := NormalizePattern(alphabet, s);
            && (r.Success? && r.value.Some? ==> Canonical(r.value.value))
            && (Canonical(s) ==> r == Success(Some(s)))
  {
    NormalizePatternMeaning(alphabet, s);
  }

  lemma {:induction false} PatternsAreCanonical(normalize: Normalizer, entries: seq<Entry>)
    requires Keeps(normalize) && Patterns(normalize, entries).Success?
    ensures forall p :: p in Patterns(normalize, entries).value ==> Canonical(p)
  {
    if entries != [] {
      PatternsAreCanonical(normalize, entries[..|entries| - 1]);
    }
  }

  lemma {:induction false} PatternsOfFixed(normalize: Normalizer, texts: seq<string>)
    requires forall p :: p in texts ==> normalize(p) == Success(Some(p))
    ensures Patterns(normalize, Texts(texts)) == Success(texts)
  {
    if texts != [] {
      var before, last := texts[..|texts| - 1], texts[|texts| - 1];
      assert last in texts;
      PatternsOfFixed(normalize, before);
      var entries := Texts(texts);
      assert entries[..|entries| - 1] == Texts(before) && entries[|entries| - 1] == Text(last);
      assert texts == before + [last];
    }
  }

  /** A normalised list is non-empty, has no repetition and holds canonical patterns only. */
  lemma NormalizedMeaning(alphabet: Alphabet, setting: Setting)
    requires Sane(alphabet) && Normalized(alphabet, setting).Success?
    ensures var origins := Normalized(alphabet, setting).value;
            origins != [] && Distinct(origins) && forall origin :: origin in origins ==> Canonical(origin)
  {
    NormalizerKeeps(alphabet);
    PatternsAreCanonical(s => NormalizePattern(alphabet, s), Entries(setting).value);
    UniqueMeaning(PatternsOf(alphabet, setting).value);
  }

  lemma CanonicalList(alphabet: Alphabet, origins: seq<string>)
    requires Sane(alphabet) && origins != [] && Distinct(origins) && forall origin :: origin in origins ==> Canonical(origin)
    ensures Normalized(alphabet, List(Texts(origins))) == Success(origins)
  {
    NormalizerKeeps(alphabet);
    PatternsOfFixed(s => NormalizePattern(alphabet, s), origins);
    UniqueOfDistinct(origins);
  }

  /** Normalising a normalised list changes nothing. */
  lemma NormalizingAgain(alphabet: Alphabet, setting: Setting)
    requires Sane(alphabet) && Normalized(alphabet, setting).Success?
    ensures var origins := Normalized(alphabet, setting).value;
            Normalized(alphabet, List(Texts(origins))) == Success(origins)
  {
    NormalizedMeaning(alphabet, setting);
    CanonicalList(alphabet, Normalized(alphabet, setting).value);
  }

  // ---------------------------------------------------------------- through the options page

  /** `origins.join("\n")` */
  function JoinLines(lines: seq<string>): string {
    if lines == [] then "" else if |lines| == 1 then lines[0] else lines[0] + "\n" + JoinLines(lines[1..])
  }

  predicate IsLine(s: string) {
    s != "" && forall c :: c in s ==> !IsSeparator(c)
  }

  lemma {:induction false} SplitAfterPiece(s: string, tail: string, piece: string)
    requires forall c :: c in s ==> !IsSeparator(c)
    ensures Split(s + tail, piece) == Split(tail, piece + s)
  {
    if s == "" {
      assert s + tail == tail && piece + s == piece;
    } else {
      assert (s + tail)[1..] == s[1..] + tail && s[0] in s;
      assert piece + [s[0]] + s[1..] == piece + s;
      SplitAfterPiece(s[1..], tail, piece + [s[0]]);
    }
  }

  lemma {:induction false} SplitLines(lines: seq<string>)
    requires lines != [] && forall s :: s in lines ==> IsLine(s)
    ensures Split(JoinLines(lines), "") == lines
  {
    var tail := if |lines| == 1 then "" else "\n" + JoinLines(lines[1..]);
    assert lines[0] in lines && JoinLines(lines) == lines[0] + tail;
    SplitAfterPiece(lines[0], tail, "");
    assert "" + lines[0] == lines[0];
    if |lines| > 1 {
      SplitLines(lines[1..]);
      assert tail[1..] == JoinLines(lines[1..]);
      assert lines[1] in lines && JoinLines(lines[1..])[0] == lines[1][0] && lines[1][0] in lines[1];
    }
  }

  /** The list shown in the text box, one origin a line, is saved as the same list. */
  lemma OptionsRoundTrip(alphabet: Alphabet, setting: Setting)
    requires Sane(alphabet) && Normalized(alphabet, setting).Success?
    ensures var origins := Normalized(alphabet, setting).value;
            Normalized(alphabet, Lines(JoinLines(origins))) == Success(origins)
  {
    NormalizedMeaning(alphabet, setting);
    var origins := Normalized(alphabet, setting).value;
    CanonicalLines(origins);
    CanonicalList(alphabet, origins);
    assert Entries(Lines(JoinLines(origins))) == Entries(List(Texts(origins)));
  }

  lemma CanonicalLines(origins: seq<string>)
    requires origins != [] && forall origin :: origin in origins ==> Canonical(origin)
    ensures Split(JoinLines(origins), "") == origins
  {
    forall origin | origin in origins
      ensures IsLine(origin)
    {
      CanonicalChars(origin);
    }
    SplitLines(origins);
  }

  // ---------------------------------------------------------------- what is allowed

  lemma MatchMeaning(pattern: Pattern, url: Url)
    requires Valid(pattern)
    ensures OriginMatches(Show(pattern), url) <==> Covers(pattern, url)
  {
    ReadShown(pattern);
    NotBroad(pattern);
  }

  /** What a listed pattern covers: the protocol of its scheme; its host, or behind a wildcard
      every host that ends in a dot and its name; and every port, the default one too, if it
      names none or a star, otherwise that port only. */
  lemma WhatIsCovered(pattern: Pattern, url: Url)
    requires Valid(pattern)
    ensures OriginMatches(Show(pattern), url) <==>
            && url.protocol == (if pattern.secure then "https:" else "http:")
            && (if "*." <= pattern.host then exists start :: url.hostname == start + pattern.host[1..]
                else url.hostname == pattern.host)
            && (pattern.port == None || pattern.port == Some("*") || pattern.port == Some(url.port))
  {
    MatchMeaning(pattern, url);
    if "*." <= pattern.host {
      EndsMeaning(url.hostname, pattern.host);
    }
  }

  lemma EndsMeaning(hostname: string, host: string)
    requires "*." <= host
    ensures EndsWith(hostname, "." + host[2..]) <==> exists start :: hostname == start + host[1..]
  {
    assert host[1] == '.' && "." + host[2..] == host[1..];
    if EndsWith(hostname, "." + host[2..]) {
      assert hostname == hostname[..|hostname| - |host[1..]|] + host[1..];
    }
    if start :| hostname == start + host[1..] {
      assert hostname[|hostname| - |host[1..]|..] == host[1..];
    }
  }

  /** A listed origin matches a file if it is the one for files, and otherwise by its pattern. */
  ghost predicate Admits(origin: string, url: Url) {
    || (origin == FILES && url.protocol == "file:")
    || exists pattern :: Valid(pattern) && Show(pattern) == origin && Covers(pattern, url)
  }

  lemma MatchOfCanonical(origin: string, url: Url)
    requires Canonical(origin)
    ensures OriginMatches(origin, url) <==> Admits(origin, url)
  {
    forall pattern | Valid(pattern) && Show(pattern) == origin
      ensures origin != FILES && (OriginMatches(origin, url) <==> Covers(pattern, url))
    {
      NotBroad(pattern);
      MatchMeaning(pattern, url);
    }
  }

  /** A URL is allowed exactly when some entry, normalised, admits it: it is a file and files
      are listed, or a listed pattern covers its protocol, host and port. So the order of the
      list and repetitions in it do not matter. */
  lemma AllowedMeaning(alphabet: Alphabet, url: Url, setting: Setting)
    requires Sane(alphabet) && Normalized(alphabet, setting).Success?
    ensures UrlIsAllowed(alphabet, Some(url), setting) ==
            Success(exists origin :: origin in PatternsOf(alphabet, setting).value && Admits(origin, url))
  {
    NormalizedMeaning(alphabet, setting);
    forall origin | origin in Normalized(alphabet, setting).value
      ensures OriginMatches(origin, url) <==> Admits(origin, url)
    {
      MatchOfCanonical(origin, url);
    }
  }

  // ---------------------------------------------------------------- patterns that match nothing

  /** A port as a URL carries it: not the protocol's own. */
  predicate IsUrlPort(secure: bool, port: string) {
    IsNumber(port) && |port| <= 5 && Decimal(port) <= 65535 && port != (if secure then "443" else "80")
  }

  ghost predicate IsWebUrl(domains: Domains, url: Url) {
    && IsParsedHost(domains, url.hostname)
    && exists secure :: url.protocol == Protocol(secure) && (url.port == "" || IsUrlPort(secure, url.port))
  }

  /** No URL carries a pattern's port spelt that way: the default port, or leading zeros. */
  predicate DeadPort(pattern: Pattern) {
    pattern.port.Some? && pattern.port.value != "*" && !IsUrlPort(pattern.secure, pattern.port.value)
  }

  /** Those are the default port of the scheme, numbers with leading zeros, and numbers too large
      for a port. */
  lemma DeadPortIs(pattern: Pattern)
    requires Valid(pattern)
    ensures DeadPort(pattern) <==>
            && pattern.port != None && pattern.port != Some("*")
            && var port := pattern.port.value;
               || port == (if pattern.secure then "443" else "80")
               || (|port| > 1 && port[0] == '0')
               || Decimal(port) > 65535
  {
  }

  /** Some URL has a host that the host pattern matches. */
  ghost predicate LiveHost(domains: Domains, host: string) {
    if "*." <= host then EndsSomeHost(domains, host[2..]) else IsParsedHost(domains, host)
  }

  lemma LiveHostMeaning(domains: Domains, host: string)
    requires AllowedHost(host)
    ensures LiveHost(domains, host) <==> exists hostname :: IsParsedHost(domains, hostname) && HostMatches(host, hostname)
  {
    if "*." <= host {
      LiveWildcard(domains, host[2..]);
    } else {
      assert HostMatches(host, host);
    }
  }

  lemma LiveWildcard(domains: Domains, name: string)
    requires name != ""
    ensures EndsSomeHost(domains, name) <==>
            exists hostname :: IsParsedHost(domains, hostname) && EndsWith(hostname, "." + name)
  {
    forall hostname | IsParsedHost(domains, hostname) && EndsWith(hostname, "." + name)
      ensures EndsSomeHost(domains, name)
    {
      EndIsLive(domains, hostname[..|hostname| - |"." + name|], name, hostname);
    }
    if EndsSomeHost(domains, name) {
      var start := SomeHost(domains, name);
      EndOfWhole(start, "." + name);
    }
  }

  lemma EndOfWhole(start: string, suffix: string)
    ensures EndsWith(start + suffix, suffix)
  {
  }

  lemma SomeUrl(pattern: Pattern, hostname: string) returns (url: Url)
    requires Valid(pattern) && !DeadPort(pattern) && HostMatches(pattern.host, hostname)
    ensures url.hostname == hostname && Covers(pattern, url)
    ensures url.protocol == Protocol(pattern.secure) && (url.port == "" || IsUrlPort(pattern.secure, url.port))
  {
    var port := if pattern.port.None? || pattern.port == Some("*") then "" else pattern.port.value;
    url := Url(Protocol(pattern.secure), hostname, port);
  }

  lemma NoUrl(domains: Domains, pattern: Pattern, url: Url)
    requires Valid(pattern) && DeadPort(pattern) && IsWebUrl(domains, url)
    ensures !Covers(pattern, url)
  {
    ValidChars(pattern);
  }

  /** Some web URL is covered by a pattern exactly when its port is not a dead one and its host
      is a live one. */
  lemma DeadPatterns(domains: Domains, pattern: Pattern)
    requires Valid(pattern)
    ensures (exists url :: IsWebUrl(domains, url) && Covers(pattern, url)) <==>
            !DeadPort(pattern) && LiveHost(domains, pattern.host)
  {
    LiveHostMeaning(domains, pattern.host);
    if DeadPort(pattern) {
      forall url | IsWebUrl(domains, url) {
        NoUrl(domains, pattern, url);
      }
    } else if LiveHost(domains, pattern.host) {
      var hostname :| IsParsedHost(domains, hostname) && HostMatches(pattern.host, hostname);
      var url := SomeUrl(pattern, hostname);
      assert IsWebUrl(domains, url);
    }
  }

  /** For hosts without punycode no names need to be looked up: such a pattern is live exactly
      when it does not end in a number, or is a canonical address, or behind a wildcard is the
      end of one. */
  lemma PlainHosts(domains: Domains, host: string)
    requires LeavesPlain(domains) && AllowedHost(host)
    requires IsPlain(if "*." <= host then host[2..] else host)
    ensures LiveHost(domains, host) <==>
            if "*." <= host then EndsInNumber(host[2..]) ==> EndsAddress(host[2..])
            else EndsInNumber(host) ==> IsAddress(host)
  {
    if "*." <= host {
      PlainEnds(domains, host[2..]);
    }
  }

  /** The shortened address 127.1 is allowed as a pattern, and no URL is covered by it. */
  lemma ShortAddress(domains: Domains, url: Url)
    requires IsWebUrl(domains, url)
    ensures var pattern := Pattern(false, "127.1", None);
            Valid(pattern) && !Covers(pattern, url)
  {
    ShortIsAllowed();
    ShortIsNoAddress(domains);
  }

  lemma ShortIsAllowed()
    ensures AllowedHost("127.1") && !("*." <= "127.1")
  {
    assert "127.1"[0] == '1' && "127.1"[3] == '.';
  }
}
