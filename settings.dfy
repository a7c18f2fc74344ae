/**
 * Configuration handling of both trackers: `load_config`'s blank-field
 * validation and the instance URL checks of the Mastodon `setup` command.
 */
module Settings {
  import opened Wrappers
  import opened Text

  /** `field.nil? || field.strip.empty?`. */
  function IsBlank(field: Option<string>): (b: bool)
    ensures b <==> field.None? || AllSpace(field.value)
  {
    match field
    case None => true
    case Some(v) =>
      StripEmptyIffBlank(v);
      Strip(v) == []
  }

  /** The JSON object of `~/.mastodon_tracker_config.json`; a missing or unparsable file is None. */
  datatype MastodonFile = MastodonFile(instance: Option<string>, token: Option<string>)
  datatype MastodonConfig = MastodonConfig(instance: string, token: string)

  /** Mastodon `load_config`: nil unless both fields hold a non-blank string; values are kept unstripped. */
  function LoadMastodonConfig(file: Option<MastodonFile>): (c: Option<MastodonConfig>)
    ensures c.Some? <==> file.Some? && !IsBlank(file.value.instance) && !IsBlank(file.value.token)
    ensures c.Some? ==> c.value.instance == file.value.instance.value && c.value.token == file.value.token.value
  {
    match file
    case None => None
    case Some(f) =>
      if IsBlank(f.instance) || IsBlank(f.token) then None
      else Some(MastodonConfig(f.instance.value, f.token.value))
  }

  /** The JSON object of `~/.bluesky_tracker_config.json`. */
  datatype BlueskyFile = BlueskyFile(handle: Option<string>, password: Option<string>)
  datatype BlueskyConfig = BlueskyConfig(handle: string, password: string)

  /** Bluesky `load_config`: nil unless handle and password are both non-blank. */
  function LoadBlueskyConfig(file: Option<BlueskyFile>): (c: Option<BlueskyConfig>)
    ensures c.Some? <==> file.Some? && !IsBlank(file.value.handle) && !IsBlank(file.value.password)
    ensures c.Some? ==> c.value.handle == file.value.handle.value && c.value.password == file.value.password.value
  {
    match file
    case None => None
    case Some(f) =>
      if IsBlank(f.handle) || IsBlank(f.password) then None
      else Some(BlueskyConfig(f.handle.value, f.password.value))
  }

  /** `instance = "https://#{instance}" unless instance.start_with?('http')`. */
  function NormalizeInstance(s: string): (r: string)
    ensures StartsWith(r, "http")
    ensures StartsWith(s, "http") ==> r == s
    ensures !StartsWith(s, "http") ==> r == "https://" + s
  {
    if StartsWith(s, "http") then s
    else
      assert ("https://" + s)[..4] == "http";
      "https://" + s
  }

  /** Normalising twice is normalising once. */
  lemma NormalizeIdempotent(s: string)
    ensures NormalizeInstance(NormalizeInstance(s)) == NormalizeInstance(s)
  {
  }

  predicate IsLetter(c: char) {
    'a' <= c <= 'z' || 'A' <= c <= 'Z'
  }

  /** `[a-zA-Z0-9.-]` */
  predicate IsHostChar(c: char) {
    IsLetter(c) || '0' <= c <= '9' || c == '.' || c == '-'
  }

  /**
   * `[a-zA-Z0-9.-]+\.[a-zA-Z]{2,}` matches at `h` with the host part ending
   * at `j` (where the literal dot is).
   */
  predicate HostEndsAt(s: string, h: nat, j: nat) {
    h < j && j + 2 < |s| &&
    (forall k :: h <= k < j ==> IsHostChar(s[k])) &&
    s[j] == '.' && IsLetter(s[j + 1]) && IsLetter(s[j + 2])
  }

  /** The backtracking search of the regex engine, from the longest host run down. */
  function ScanHost(s: string, h: nat, j: nat): bool
    requires h < j <= |s|
    decreases |s| - j
  {
    (j + 2 < |s| && s[j] == '.' && IsLetter(s[j + 1]) && IsLetter(s[j + 2])) ||
    (j < |s| && IsHostChar(s[j]) && ScanHost(s, h, j + 1))
  }

  lemma {:induction false} ScanHostIff(s: string, h: nat, j: nat)
    requires h < j <= |s|
    requires forall k :: h <= k < j ==> IsHostChar(s[k])
    ensures ScanHost(s, h, j) <==> exists e :: j <= e && HostEndsAt(s, h, e)
    decreases |s| - j
  {
    if j < |s| && IsHostChar(s[j]) {
      ScanHostIff(s, h, j + 1);
    }
    if j + 2 < |s| && s[j] == '.' && IsLetter(s[j + 1]) && IsLetter(s[j + 2]) {
      assert HostEndsAt(s, h, j);
    }
    if exists e :: j <= e && HostEndsAt(s, h, e) {
      var e :| j <= e && HostEndsAt(s, h, e);
      if e > j {
        assert IsHostChar(s[j]);
        assert j + 1 <= e && HostEndsAt(s, h, e);
      }
    }
  }

  /** `^https?:\/\/` followed by the host pattern, anchored at `i`. */
  function PatternAt(s: string, i: nat): bool
    requires i <= |s|
  {
    var t := s[i..];
    (StartsWith(t, "http://") && i + 7 < |s| && IsHostChar(s[i + 7]) && ScanHost(s, i + 7, i + 8)) ||
    (StartsWith(t, "https://") && i + 8 < |s| && IsHostChar(s[i + 8]) && ScanHost(s, i + 8, i + 9))
  }

  /** `^` in a Ruby regex anchors at the start of any line. */
  function MatchesFrom(s: string, i: nat): bool
    requires i <= |s|
    decreases |s| - i
  {
    ((i == 0 || s[i - 1] == '\n') && PatternAt(s, i)) || (i < |s| && MatchesFrom(s, i + 1))
  }

  /** `instance.match?(/^https?:\/\/[a-zA-Z0-9.-]+\.[a-zA-Z]{2,}/)`. */
  function ValidInstanceUrl(s: string): bool {
    MatchesFrom(s, 0)
  }

  /** The scheme-and-host pattern holds of `s` at line start `i`, as a regex reads it. */
  ghost predicate UrlAt(s: string, i: nat) {
    i <= |s| && (i == 0 || s[i - 1] == '\n') &&
    exists p :: SchemeEndsAt(s, i, p) && exists e :: HostEndsAt(s, p, e)
  }

  /** `https?:\/\/` matches from `i` up to `p`. */
  predicate SchemeEndsAt(s: string, i: nat, p: nat) {
    i <= |s| &&
    ((p == i + 7 && StartsWith(s[i..], "http://")) || (p == i + 8 && StartsWith(s[i..], "https://")))
  }

  lemma HostAt(s: string, p: nat)
    requires p <= |s|
    ensures (p < |s| && IsHostChar(s[p]) && ScanHost(s, p, p + 1)) <==> exists e :: HostEndsAt(s, p, e)
  {
    if p < |s| && IsHostChar(s[p]) {
      ScanHostIff(s, p, p + 1);
    }
    if exists e :: HostEndsAt(s, p, e) {
      var e :| HostEndsAt(s, p, e);
      assert IsHostChar(s[p]);
      ScanHostIff(s, p, p + 1);
    }
  }

  /** The scanner agrees with the regex reading of the pattern. */
  lemma PatternAtIff(s: string, i: nat)
    requires i <= |s| && (i == 0 || s[i - 1] == '\n')
    ensures PatternAt(s, i) <==> UrlAt(s, i)
  {
    var t := s[i..];
    if i + 7 <= |s| {
      HostAt(s, i + 7);
    }
    if i + 8 <= |s| {
      HostAt(s, i + 8);
    }
    if PatternAt(s, i) {
      if StartsWith(t, "http://") && i + 7 < |s| && IsHostChar(s[i + 7]) && ScanHost(s, i + 7, i + 8) {
        assert SchemeEndsAt(s, i, i + 7);
      } else {
        assert SchemeEndsAt(s, i, i + 8);
      }
    }
    if UrlAt(s, i) {
      var p: nat :| SchemeEndsAt(s, i, p) && exists e :: HostEndsAt(s, p, e);
      var e: nat :| HostEndsAt(s, p, e);
      assert p <= |s|;
    }
  }

  lemma {:induction false} MatchesFromIff(s: string, i: nat)
    requires i <= |s|
    ensures MatchesFrom(s, i) <==> exists k :: i <= k <= |s| && UrlAt(s, k)
    decreases |s| - i
  {
    if i < |s| {
      MatchesFromIff(s, i + 1);
    }
    if i == 0 || s[i - 1] == '\n' {
      PatternAtIff(s, i);
    }
    if exists k :: i <= k <= |s| && UrlAt(s, k) {
      var k :| i <= k <= |s| && UrlAt(s, k);
      if k > i {
        assert i + 1 <= k <= |s| && UrlAt(s, k);
      }
    }
  }

  /** The URL check holds exactly when some line of the input starts with scheme and host. */
  lemma ValidInstanceUrlIff(s: string)
    ensures ValidInstanceUrl(s) <==> exists k :: 0 <= k <= |s| && UrlAt(s, k)
  {
    MatchesFromIff(s, 0);
  }

  /** `setup`'s validation of the instance answer. */
  datatype InstanceCheck = EmptyInstance | InvalidInstance | InstanceUrl(url: string)

  /**
   * `STDIN.gets&.chomp&.strip`, the empty check, the `https://` prefix and the
   * pattern check.  (`chomp` removes a trailing line break, which `strip`
   * removes as well.)
   */
  function CheckInstance(line: Option<string>): (r: InstanceCheck)
    ensures r == EmptyInstance <==> line.None? || AllSpace(line.value)
    ensures r.InstanceUrl? ==> StartsWith(r.url, "http") && ValidInstanceUrl(r.url)
    ensures r.InstanceUrl? ==> r.url == NormalizeInstance(Strip(line.value))
    ensures r == InvalidInstance <==>
              line.Some? && !AllSpace(line.value) && !ValidInstanceUrl(NormalizeInstance(Strip(line.value)))
  {
    match line
    case None => EmptyInstance
    case Some(l) =>
      var s := Strip(l);
      StripEmptyIffBlank(l);
      if s == [] then EmptyInstance
      else
        var url := NormalizeInstance(s);
        if ValidInstanceUrl(url) then InstanceUrl(url) else InvalidInstance
  }

  datatype SetupResult =
    | SetupInstanceError(check: InstanceCheck)
    | EmptyToken
    | Saved(config: MastodonConfig)

  /** Mastodon `setup`: what is saved, or why nothing is. */
  function Setup(instanceLine: Option<string>, tokenLine: Option<string>): (r: SetupResult)
    ensures r.Saved? <==> CheckInstance(instanceLine).InstanceUrl? && tokenLine.Some? && !AllSpace(tokenLine.value)
    ensures r.Saved? ==> r.config == MastodonConfig(CheckInstance(instanceLine).url, Strip(tokenLine.value))
    ensures !CheckInstance(instanceLine).InstanceUrl? ==> r == SetupInstanceError(CheckInstance(instanceLine))
    ensures CheckInstance(instanceLine).InstanceUrl? && (tokenLine.None? || AllSpace(tokenLine.value)) ==> r == EmptyToken
  {
    match CheckInstance(instanceLine)
    case InstanceUrl(url) =>
      if tokenLine.None? then EmptyToken
      else
        StripEmptyIffBlank(tokenLine.value);
        if Strip(tokenLine.value) == [] then EmptyToken
        else Saved(MastodonConfig(url, Strip(tokenLine.value)))
    case other => SetupInstanceError(other)
  }

  /** What `setup` saves, `load_config` accepts unchanged. */
  lemma SetupThenLoad(instanceLine: Option<string>, tokenLine: Option<string>)
    requires Setup(instanceLine, tokenLine).Saved?
    ensures var c := Setup(instanceLine, tokenLine).config;
      LoadMastodonConfig(Some(MastodonFile(Some(c.instance), Some(c.token)))) == Some(c)
  {
    var c := Setup(instanceLine, tokenLine).config;
    var url := CheckInstance(instanceLine).url;
    assert url == c.instance && StartsWith(url, "http");
    assert url[0] == url[..4][0] == 'h';
    assert !AllSpace(url);
    var t := Strip(tokenLine.value);
    assert t == c.token && t != [];
    assert !IsSpace(t[|t| - 1]);
    assert !AllSpace(t);
    assert !IsBlank(Some(c.instance)) && !IsBlank(Some(c.token));
  }
}
