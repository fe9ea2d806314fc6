/**
 The URL check of the submission form: a non-empty string that matches
 `^(https?://)?(www.)?(youtube.com|youtu.be)/.+$` (dots literal, case-sensitive).
 */
module YoutubeForm {
  import opened Wrappers

  /** The characters a JavaScript `.` does not match. */
  predicate IsLineTerminator(c: char)
  {
    c == '\n' || c == '\r' || c == '\U{2028}' || c == '\U{2029}'
  }

  predicate NoLineTerminator(t: string)
  {
    forall i :: 0 <= i < |t| ==> !IsLineTerminator(t[i])
  }

  /** What `.+$` accepts: one or more characters, none a line terminator. */
  predicate IsRestOfLine(t: string)
  {
    |t| >= 1 && NoLineTerminator(t)
  }

  // The regular expression read declaratively: the string splits into the
  // optional groups, the host, a slash and the rest of the line.

  const Schemes: set<string> := {"", "http://", "https://"}
  const WwwPrefixes: set<string> := {"", "www."}
  const Hosts: set<string> := {"youtube.com", "youtu.be"}

  /** `s` is `scheme`, then `www`, then `host`, then `/`, then a rest of line. */
  predicate SplitsAs(s: string, scheme: string, www: string, host: string)
  {
    && scheme <= s
    && var afterScheme := s[|scheme|..];
    && www <= afterScheme
    && var afterWww := afterScheme[|www|..];
    && host + "/" <= afterWww
    && IsRestOfLine(afterWww[|host| + 1..])
  }

  ghost predicate RegexMatches(s: string)
  {
    exists scheme, www, host ::
      scheme in Schemes && www in WwwPrefixes && host in Hosts && SplitsAs(s, scheme, www, host)
  }

  // The recogniser: one group at a time, left to right.

  function AfterScheme(s: string): string
  {
    if "https://" <= s then s[8..] else if "http://" <= s then s[7..] else s
  }

  function AfterWww(s: string): string
  {
    if "www." <= s then s[4..] else s
  }

  /** What follows `youtube.com/` or `youtu.be/`, if `s` starts with either. */
  function AfterHost(s: string): Option<string>
  {
    if "youtube.com/" <= s then Some(s[12..])
    else if "youtu.be/" <= s then Some(s[9..])
    else None
  }

  predicate IsYoutubeUrl(s: string)
  {
    var rest := AfterHost(AfterWww(AfterScheme(s)));
    rest.Some? && IsRestOfLine(rest.value)
  }

  lemma PrefixSplit(p: string, s: string)
    requires p <= s
    ensures s == p + s[|p|..]
  {
  }

  lemma AfterSchemeOf(scheme: string, r: string)
    requires scheme in Schemes
    requires r != [] && (r[0] == 'w' || r[0] == 'y')
    ensures AfterScheme(scheme + r) == r
  {
    var s := scheme + r;
    if scheme == "" {
      assert s == r;
      assert !("https://" <= s) && !("http://" <= s) by { assert s[0] != 'h'; }
    } else if scheme == "http://" {
      assert "http://" <= s;
      assert !("https://" <= s) by { assert s[4] == ':'; }
      assert s[7..] == r;
    } else {
      assert "https://" <= s;
      assert s[8..] == r;
    }
  }

  lemma AfterWwwOf(www: string, r: string)
    requires www in WwwPrefixes
    requires r != [] && r[0] == 'y'
    ensures AfterWww(www + r) == r
  {
    var s := www + r;
    if www == "" {
      assert s == r;
      assert !("www." <= s) by { assert s[0] != 'w'; }
    } else {
      assert "www." <= s;
      assert s[4..] == r;
    }
  }

  lemma AfterHostOf(host: string, t: string)
    requires host in Hosts
    ensures AfterHost(host + "/" + t) == Some(t)
  {
    var s := host + "/" + t;
    if host == "youtube.com" {
      assert "youtube.com/" <= s;
      assert s[12..] == t;
    } else {
      assert !("youtube.com/" <= s) by { assert s[5] == '.'; }
      assert "youtu.be/" <= s;
      assert s[9..] == t;
    }
  }

  /** Every string the recogniser accepts matches the regular expression. */
  lemma RecogniserSound(s: string)
    requires IsYoutubeUrl(s)
    ensures RegexMatches(s)
  {
    var scheme := if "https://" <= s then "https://" else if "http://" <= s then "http://" else "";
    var www := if "www." <= s[|scheme|..] then "www." else "";
    var host := if "youtube.com/" <= s[|scheme|..][|www|..] then "youtube.com" else "youtu.be";
    assert SplitsAs(s, scheme, www, host);
  }

  /** Every string the regular expression matches is accepted by the recogniser. */
  lemma RecogniserComplete(s: string)
    requires RegexMatches(s)
    ensures IsYoutubeUrl(s)
  {
    var scheme, www, host :| scheme in Schemes && www in WwwPrefixes && host in Hosts && SplitsAs(s, scheme, www, host);
    var r1 := s[|scheme|..];
    var r2 := r1[|www|..];
    var t := r2[|host| + 1..];
    PrefixSplit(scheme, s);
    PrefixSplit(www, r1);
    PrefixSplit(host + "/", r2);
    assert r2[0] == 'y';
    assert r1[0] == 'w' || r1[0] == 'y';
    AfterSchemeOf(scheme, r1);
    AfterWwwOf(www, r2);
    AfterHostOf(host, t);
  }

  /** The recogniser accepts exactly the strings the regular expression matches. */
  lemma RecogniserMatchesRegex(s: string)
    ensures IsYoutubeUrl(s) <==> RegexMatches(s)
  {
    if IsYoutubeUrl(s) {
      RecogniserSound(s);
    }
    if RegexMatches(s) {
      RecogniserComplete(s);
    }
  }

  // The form schema: the url field must be non-empty, then must match.

  /** The reasons the url field can be refused. */
  datatype Issue = Required | InvalidUrl

  function Message(issue: Issue): string
  {
    match issue
    case Required => "YouTube URL is required"
    case InvalidUrl => "Please enter a valid YouTube URL"
  }

  /** The issues the schema reports for `url`: every failing check, in the
      order the checks are declared. */
  function UrlIssues(url: string): seq<Issue>
  {
    (if |url| < 1 then [Required] else []) + (if IsYoutubeUrl(url) then [] else [InvalidUrl])
  }

  /** The form accepts exactly the strings the regular expression matches; the
      length check only ever adds a second reason to refuse. */
  lemma UrlAcceptedIffRegexMatches(url: string)
    ensures UrlIssues(url) == [] <==> RegexMatches(url)
    ensures Required in UrlIssues(url) ==> InvalidUrl in UrlIssues(url)
  {
    RecogniserMatchesRegex(url);
  }

  /** The empty string fails both checks, the required check first. */
  lemma EmptyUrlRejected()
    ensures UrlIssues("") == [Required, InvalidUrl]
    ensures Message(UrlIssues("")[0]) == "YouTube URL is required"
  {
  }

  /** Any optional scheme and `www.`, either host, a slash and a rest of line
      is accepted. */
  lemma WellFormedUrlAccepted(scheme: string, www: string, host: string, path: string)
    requires scheme in Schemes && www in WwwPrefixes && host in Hosts
    requires IsRestOfLine(path)
    ensures RegexMatches(scheme + www + host + "/" + path)
  {
    var r2 := host + "/" + path;
    var r1 := www + r2;
    assert scheme + www + host + "/" + path == scheme + r1;
    AfterSchemeOf(scheme, r1);
    AfterWwwOf(www, r2);
    AfterHostOf(host, path);
    RecogniserSound(scheme + r1);
  }

  /** A short link with neither optional group is accepted. */
  lemma ShortUrlAccepted()
    ensures RegexMatches("youtu.be/abc")
  {
  }

  /** A full link with both optional groups is accepted. */
  lemma FullUrlAccepted()
    ensures RegexMatches("https://www.youtube.com/watch?v=x")
  {
    var url := "https://" + "www." + "youtube.com" + "/" + "watch?v=x";
    assert url == "https://www.youtube.com/watch?v=x";
    WellFormedUrlAccepted("https://", "www.", "youtube.com", "watch?v=x");
  }

  /** A host and its slash with nothing after it is refused: `.+` needs a character. */
  lemma EmptyPathRejected(scheme: string, www: string, host: string)
    requires scheme in Schemes && www in WwwPrefixes && host in Hosts
    ensures !RegexMatches(scheme + www + host + "/")
  {
    var r2 := host + "/" + "";
    var r1 := www + r2;
    assert scheme + www + host + "/" == scheme + r1;
    AfterSchemeOf(scheme, r1);
    AfterWwwOf(www, r2);
    AfterHostOf(host, "");
    RecogniserMatchesRegex(scheme + r1);
  }

  /** The match is anchored and case-sensitive: a string whose first character
      is not the `h` of a scheme, the `w` of `www.` or the `y` of a host is
      refused. This covers other hosts (`m.youtube.com/x`, `vimeo.com/x`), other
      schemes (`ftp://youtube.com/x`) and other letter cases (`YouTube.com/x`). */
  lemma WrongStartRejected(s: string)
    requires s == [] || (s[0] != 'h' && s[0] != 'w' && s[0] != 'y')
    ensures !RegexMatches(s)
  {
  }

  lemma NoLineTerminatorJoin(p: string, s: string)
    requires p <= s && NoLineTerminator(p) && NoLineTerminator(s[|p|..])
    ensures NoLineTerminator(s)
  {
  }

  lemma PiecesHaveNoLineTerminator(scheme: string, www: string, host: string)
    requires scheme in Schemes && www in WwwPrefixes && host in Hosts
    ensures NoLineTerminator(scheme) && NoLineTerminator(www) && NoLineTerminator(host + "/")
  {
  }

  /** A matching string holds no line terminator anywhere: `.` does not match
      one and `$` is the end of the whole input. */
  lemma MatchHasNoLineTerminator(s: string)
    requires RegexMatches(s)
    ensures NoLineTerminator(s)
  {
    var scheme, www, host :| scheme in Schemes && www in WwwPrefixes && host in Hosts && SplitsAs(s, scheme, www, host);
    var r1 := s[|scheme|..];
    var r2 := r1[|www|..];
    PiecesHaveNoLineTerminator(scheme, www, host);
    NoLineTerminatorJoin(host + "/", r2);
    NoLineTerminatorJoin(www, r1);
    NoLineTerminatorJoin(scheme, s);
  }

  /** The shortest accepted URL, `youtu.be/` and one character, has ten
      characters, so the length check never decides on its own. */
  lemma MatchIsAtLeastTenLong(s: string)
    requires RegexMatches(s)
    ensures |s| >= 10
  {
  }

  /** The concrete refusals. */
  lemma ExampleUrlsRejected()
    ensures !RegexMatches("youtube.com/")
    ensures !RegexMatches("m.youtube.com/x") && !RegexMatches("vimeo.com/x") && !RegexMatches("ftp://youtube.com/x")
    ensures !RegexMatches("YouTube.com/x")
    ensures !RegexMatches("youtube.com/a\nb")
  {
    EmptyPathRejected("", "", "youtube.com");
    assert "" + "" + "youtube.com" + "/" == "youtube.com/";
    WrongStartRejected("m.youtube.com/x");
    WrongStartRejected("vimeo.com/x");
    WrongStartRejected("ftp://youtube.com/x");
    WrongStartRejected("YouTube.com/x");
    var broken := "youtube.com/a\nb";
    if RegexMatches(broken) {
      MatchHasNoLineTerminator(broken);
      assert IsLineTerminator(broken[13]);
    }
  }
}
