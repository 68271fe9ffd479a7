/** `pellipop/whisper_from_url.py`: the object that fetches a Whisper client configuration
    from a URL and keeps it in a JSON file. The URL is normalised before it is checked,
    `validators.url` is the parameter `isUrl`, the HTTP request is replaced by the response it
    gives, and JSON is the pair of parameters `dump` and `load`. */
module WhisperUrl {
  import opened Wrappers
  import opened Strings
  import opened Paths
  import opened Fs

  // ---- the URL ----

  /** What `validate_url` makes of the URL before checking it: a URL that does not start with
      `http` gets `https://` in front, and `www.` before that when it has fewer than two dots;
      a URL that does start with `http` but has fewer than two dots gets `www.` after each
      `https://` and each `http://`. */
  function NormalizeUrl(url: string): string
  {
    if !("http" <= url) then
      "https://" + (if CountChar(url, '.') < 2 then "www." + url else url)
    else if CountChar(url, '.') < 2 then
      PyReplace(PyReplace(url, "https://", "https://www."), "http://", "http://www.")
    else url
  }

  /** Replacing a pattern that starts with `h` by a value that starts with `http` keeps a
      leading `http`. */
  lemma ReplaceKeepsHttp(s: string, pat: string, val: string)
    requires "http" <= s && |pat| > 0 && pat[0] == 'h' && "http" <= val
    ensures "http" <= Replace(s, pat, val)
  {
    if |s| >= |pat| && !(pat <= s) {
      assert s[1..4] == "ttp";
      ReplaceSkips(s[1..4], s[4..], pat, val);
      assert s[1..] == s[1..4] + s[4..];
      assert Replace(s, pat, val) == [s[0]] + s[1..4] + Replace(s[4..], pat, val);
    } else if |s| >= |pat| {
      assert Replace(s, pat, val) == val + Replace(s[|pat|..], pat, val);
    }
  }

  /** The normalised URL always starts with `http`, and a URL that did not is the old one
      behind `https://` or `https://www.`. */
  lemma NormalizeStartsWithHttp(url: string)
    ensures "http" <= NormalizeUrl(url)
    ensures !("http" <= url) && CountChar(url, '.') < 2 ==> NormalizeUrl(url) == "https://www." + url
    ensures !("http" <= url) && CountChar(url, '.') >= 2 ==> NormalizeUrl(url) == "https://" + url
    ensures "http" <= url && CountChar(url, '.') >= 2 ==> NormalizeUrl(url) == url
  {
    if !("http" <= url) {
      var tail := if CountChar(url, '.') < 2 then "www." + url else url;
      assert ("https://" + tail)[..4] == "http";
    } else if CountChar(url, '.') < 2 {
      ReplaceKeepsHttp(url, "https://", "https://www.");
      ReplaceKeepsHttp(Replace(url, "https://", "https://www."), "http://", "http://www.");
    }
  }

  /** A normalised URL with at least two dots is left alone by a second normalisation. */
  lemma NormalizeSettles(url: string)
    requires CountChar(NormalizeUrl(url), '.') >= 2
    ensures NormalizeUrl(NormalizeUrl(url)) == NormalizeUrl(url)
  {
    NormalizeStartsWithHttp(url);
  }

  /** A host that holds no scheme: neither `http://` nor `https://` occurs in it. */
  predicate NoScheme(host: string)
  {
    Free(host, "http://") && Free(host, "https://")
  }

  /** A pattern that differs from a prefix at index 4, and whose first character occurs
      nowhere after the first one, is replaced only in the rest. */
  lemma ReplaceMismatch(pre: string, rest: string, pat: string, val: string)
    requires |pre| > 4 && |pat| > 4 && pre[4] != pat[4]
    requires pat[0] !in pre[1..]
    ensures Replace(pre + rest, pat, val) == pre + Replace(rest, pat, val)
  {
    var s := pre + rest;
    if |s| >= |pat| {
      assert !(pat <= s) by {
        assert s[4] == pre[4];
      }
      assert Replace(s, pat, val) == [s[0]] + Replace(s[1..], pat, val);
      assert s[1..] == pre[1..] + rest;
      ReplaceSkips(pre[1..], rest, pat, val);
      assert s[0] == pre[0] && [pre[0]] + pre[1..] == pre;
      assert [pre[0]] + (pre[1..] + Replace(rest, pat, val)) == pre + Replace(rest, pat, val);
    } else {
      assert |rest| < |pat| && Replace(rest, pat, val) == rest;
    }
  }

  /** Behind a scheme, the dots are those of the host, and the URL starts with `http`. */
  lemma SchemeHost(scheme: string, host: string)
    requires "http" <= scheme && '.' !in scheme
    ensures "http" <= scheme + host
    ensures CountChar(scheme + host, '.') == CountChar(host, '.')
  {
    CountCharAppend(scheme, host, '.');
  }

  /** A host with no dot that does not start with `http` gets `https://www.` in front. */
  lemma NormalizeBareHost(host: string)
    requires '.' !in host && !("http" <= host)
    ensures NormalizeUrl(host) == "https://www." + host
  {
    assert CountChar(host, '.') == 0;
  }

  /** A URL that starts with `http` and has fewer than two dots goes through both
      replacements. */
  lemma NormalizeShort(u: string, v: string, w: string)
    requires "http" <= u && CountChar(u, '.') < 2
    requires Replace(u, "https://", "https://www.") == v && Replace(v, "http://", "http://www.") == w
    ensures NormalizeUrl(u) == w
  {
  }

  /** Normalising a dotless host that holds no scheme and does not start with `http` twice
      gives it a second `www.`. */
  lemma NormalizeAgain(host: string)
    requires '.' !in host && !("http" <= host) && NoScheme(host)
    ensures NormalizeUrl(NormalizeUrl(host)) == "https://www." + ("www." + host)
  {
    NormalizeBareHost(host);
    var rest := "www." + host;
    assert CountChar(rest, '.') < 2 by {
      CountCharAppend("www.", host, '.');
    }
    FreeBehind("www.", host, "http://");
    FreeBehind("www.", host, "https://");
    NormalizeShortSecure(rest);
  }

  /** The `https://www.` prefix differs from `http://` at index 4 and holds no second `h`. */
  lemma SecureWwwPrefix()
    ensures |"https://www."| > 4 && |"http://"| > 4 && "https://www."[4] != "http://"[4]
    ensures 'h' !in "https://www."[1..]
  {
  }

  /** A host with fewer than two dots and no scheme behind `https://` gets `www.` in front
      of it. */
  lemma NormalizeShortSecure(host: string)
    requires CountChar(host, '.') < 2 && NoScheme(host)
    ensures NormalizeUrl("https://" + host) == "https://www." + host
  {
    var u := "https://" + host;
    var v := "https://www." + host;
    SchemeHost("https://", host);
    assert "https://" <= u && u[|"https://"|..] == host;
    ReplaceFree(host, "https://", "https://www.");
    SecureWwwPrefix();
    ReplaceMismatch("https://www.", host, "http://", "http://www.");
    ReplaceFree(host, "http://", "http://www.");
    NormalizeShort(u, v, v);
  }

  /** A host with fewer than two dots and no scheme behind `http://` gets `www.` in front of
      it. */
  lemma NormalizeShortPlain(host: string)
    requires CountChar(host, '.') < 2 && NoScheme(host)
    ensures NormalizeUrl("http://" + host) == "http://www." + host
  {
    var u := "http://" + host;
    SchemeHost("http://", host);
    ReplaceFree(host, "https://", "https://www.");
    if |host| > 0 {
      ReplaceMismatch("http://", host, "https://", "https://www.");
    } else {
      assert u == "http://";
    }
    assert "http://" <= u && u[|"http://"|..] == host;
    ReplaceFree(host, "http://", "http://www.");
  }

  /** `https://a.b` becomes `https://www.a.b`. */
  lemma NormalizeExample(host: string)
    requires host == "a.b"
    ensures NormalizeUrl("https://" + host) == "https://www.a.b"
  {
    assert CountChar(host, '.') == 1;
    AbsentIsFree(host, "http://");
    AbsentIsFree(host, "https://");
    NormalizeShortSecure(host);
  }

  // ---- the configuration file ----

  /** The file the configuration is kept in: `~/.whisperrc` when none is given, otherwise
      `Path(file)`, which refuses (with `TypeError`) a value that is neither text nor a path. */
  function ConfigPath(file: Option<PathArg>, home: Path): (p: Option<Path>)
    ensures file.None? ==> p.Some? && Parent(p.value) == home && Name(p.value) == ".whisperrc"
    ensures file.Some? ==> p == AsPath(file.value)
    ensures p.None? <==> file == Some(OtherValue)
  {
    match file
    case Some(f) => AsPath(f)
    case None => Some(home + [".whisperrc"])
  }

  /** The file system after `write_config`, and what it returned or raised. */
  datatype Written<E> = Written(entries: map<Path, Node>, result: Result<bool, E>)

  /** `write_config`: a directory or an existing path that is not a regular file is refused
      with `False` and nothing written; otherwise the file is opened for writing, which raises
      when its folder is missing. */
  function WriteConfigResult(m: map<Path, Node>, file: Path, content: string): Written<OsError>
  {
    if IsDirIn(m, file) || (!IsFileIn(m, file) && ExistsIn(m, file)) then Written(m, Ok(false))
    else
      match WriteResult(m, file, content)
      case Err(e) => Written(m, Err(e))
      case Ok(m') => Written(m', Ok(true))
  }

  /** Why `read_config` or `write_config` raised: an `OSError`, a file that is not JSON, or a
      `file` argument that `Path()` refuses with `TypeError`. */
  datatype ConfigError = Os(error: OsError) | InvalidJson | ArgType

  /** `write_config` given its `file` argument: `Path()` first, then the write. */
  function WriteConfigArg(m: map<Path, Node>, file: Option<PathArg>, home: Path, content: string): Written<ConfigError>
  {
    match ConfigPath(file, home)
    case None => Written(m, Err(ArgType))
    case Some(f) =>
      var w := WriteConfigResult(m, f, content);
      Written(w.entries, match w.result case Ok(b) => Ok(b) case Err(e) => Err(Os(e)))
  }

  /** `read_config`: a missing path raises `FileNotFoundError`, then a directory raises
      `IsADirectoryError`, then anything but a regular file raises `FileNotFoundError`;
      otherwise the file is parsed. */
  function ReadConfig<C>(m: map<Path, Node>, file: Path, load: string -> Option<C>): Result<C, ConfigError>
  {
    if !ExistsIn(m, file) then Err(Os(FileNotFound))
    else if IsDirIn(m, file) then Err(Os(IsADirectory))
    else if !IsFileIn(m, file) then Err(Os(FileNotFound))
    else
      match load(m[file].content)
      case None => Err(InvalidJson)
      case Some(c) => Ok(c)
  }

  /** `read_config` given its `file` argument: `Path()` first, then the checks. */
  function ReadConfigArg<C>(m: map<Path, Node>, file: Option<PathArg>, home: Path, load: string -> Option<C>): Result<C, ConfigError>
  {
    match ConfigPath(file, home)
    case None => Err(ArgType)
    case Some(f) => ReadConfig(m, f, load)
  }

  /** `write_config` refuses exactly a directory or an existing path that is not a regular
      file, and then writes nothing; when it writes, it replaces the file and nothing else. */
  lemma WriteConfigRefuses(m: map<Path, Node>, file: Path, content: string)
    ensures WriteConfigResult(m, file, content).result == Ok(false)
      <==> IsDirIn(m, file) || (ExistsIn(m, file) && !IsFileIn(m, file))
    ensures !WriteConfigResult(m, file, content).result.Ok? || WriteConfigResult(m, file, content).result == Ok(false)
      ==> WriteConfigResult(m, file, content).entries == m
    ensures WriteConfigResult(m, file, content).result == Ok(true)
      ==> WriteConfigResult(m, file, content).entries == m[file := File(content)]
    ensures WriteConfigResult(m, file, content).result.Err? <==>
      (!ExistsIn(m, file) || IsFileIn(m, file)) && !IsDirIn(m, Parent(file))
  {
  }

  /** `read_config` raises in the order of its checks, and reads back what `write_config`
      wrote. */
  lemma ReadConfigChecks<C>(m: map<Path, Node>, file: Path, content: string, load: string -> Option<C>)
    ensures !ExistsIn(m, file) ==> ReadConfig(m, file, load) == Err(Os(FileNotFound))
    ensures IsDirIn(m, file) ==> ReadConfig(m, file, load) == Err(Os(IsADirectory))
    ensures ExistsIn(m, file) && !IsDirIn(m, file) && !IsFileIn(m, file)
      ==> ReadConfig(m, file, load) == Err(Os(FileNotFound))
    ensures ReadConfig(m, file, load).Ok? ==> IsFileIn(m, file) && load(m[file].content) == Some(ReadConfig(m, file, load).value)
    ensures WriteConfigResult(m, file, content).result == Ok(true) ==>
      ReadConfig(WriteConfigResult(m, file, content).entries, file, load)
        == (if load(content).Some? then Ok(load(content).value) else Err(InvalidJson))
  {
  }

  /** Both functions refuse a `file` that is neither text nor a path before touching the file
      system, default to `~/.whisperrc`, and read back through the same argument what they
      wrote, whether it was given as text or as a path. */
  lemma ConfigArgRoundTrip<C>(m: map<Path, Node>, file: Option<PathArg>, home: Path, content: string, load: string -> Option<C>)
    ensures file == Some(OtherValue) ==>
      WriteConfigArg(m, file, home, content) == Written(m, Err(ArgType)) &&
      ReadConfigArg(m, file, home, load) == Err(ArgType)
    ensures file.None? ==>
      ReadConfigArg(m, file, home, load) == ReadConfig(m, home + [".whisperrc"], load) &&
      WriteConfigArg(m, file, home, content).entries == WriteConfigResult(m, home + [".whisperrc"], content).entries
    ensures file.Some? && file.value.PathText? ==>
      ReadConfigArg(m, file, home, load) == ReadConfig(m, ParsePath(file.value.text), load)
    ensures WriteConfigArg(m, file, home, content).result == Ok(true) ==>
      ReadConfigArg(WriteConfigArg(m, file, home, content).entries, file, home, load)
        == (if load(content).Some? then Ok(load(content).value) else Err(InvalidJson))
  {
    if WriteConfigArg(m, file, home, content).result == Ok(true) {
      var f := ConfigPath(file, home).value;
      ReadConfigChecks(m, f, content, load);
    }
  }

  // ---- the object ----

  /** Why `pull_config` raised `URLImportError`. */
  datatype FetchError = HttpError | ConnectionError | Timeout | RequestError | JsonError

  /** `validate_url` on an object whose URL is still `None`: `None` has no `startswith`. */
  datatype UrlError = AttributeError

  class WhisperFromUrl<C> {
    var url: Option<string>
    var config: Option<C>
    var valid: bool

    /** `WhisperFromUrl(url)`: nothing set, then `set_url` when a URL is given. */
    constructor (u: Option<string>, isUrl: string -> bool)
      ensures u.None? ==> url == None && !valid
      ensures u.Some? ==> url == Some(NormalizeUrl(u.value)) && valid == isUrl(NormalizeUrl(u.value))
      ensures config == None
    {
      url := None;
      config := None;
      valid := false;
      new;
      if u.Some? {
        SetUrl(u.value, isUrl);
      }
    }

    /** `set_url`: store the URL, normalise it and record whether the result is a URL. */
    method SetUrl(u: string, isUrl: string -> bool)
      modifies this
      ensures url == Some(NormalizeUrl(u)) && valid == isUrl(NormalizeUrl(u))
      ensures config == old(config)
    {
      url := Some(u);
      var ok := ValidateUrl(isUrl);
      valid := ok.value;
    }

    /** `validate_url`: normalise the stored URL in place and check it. */
    method ValidateUrl(isUrl: string -> bool) returns (r: Result<bool, UrlError>)
      modifies this
      ensures old(url).None? ==> r == Err(AttributeError) && url == None
      ensures old(url).Some? ==> url == Some(NormalizeUrl(old(url).value)) && r == Ok(isUrl(url.value))
      ensures config == old(config) && valid == old(valid)
    {
      if url.None? {
        return Err(AttributeError);
      }
      var u := url.value;
      if !("http" <= u) {
        if CountChar(u, '.') < 2 {
          u := "www." + u;
        }
        u := "https://" + u;
      } else {
        if CountChar(u, '.') < 2 {
          u := PyReplace(u, "https://", "https://www.");
          u := PyReplace(u, "http://", "http://www.");
        }
      }
      url := Some(u);
      r := Ok(isUrl(u));
    }

    /** `pull_config`, given what the request returned: the configuration is stored, or
        `URLImportError` is raised with the object unchanged. */
    method PullConfig(response: Result<C, FetchError>) returns (r: Result<C, FetchError>)
      modifies this
      ensures r == response
      ensures response.Ok? ==> config == Some(response.value)
      ensures response.Err? ==> config == old(config)
      ensures url == old(url) && valid == old(valid)
    {
      if response.Err? {
        return response;
      }
      config := Some(response.value);
      r := response;
    }

    /** `write_config`, with `dump` the JSON text of the stored configuration. */
    method WriteConfig(fs: FileSystem, file: Option<PathArg>, home: Path, dump: Option<C> -> string)
      returns (r: Result<bool, ConfigError>)
      requires fs.Valid()
      modifies fs
      ensures fs.Valid()
      ensures var w := WriteConfigArg(old(fs.entries), file, home, dump(config));
        r == w.result && fs.entries == w.entries
    {
      var path := ConfigPath(file, home);
      if path.None? {
        return Err(ArgType);
      }
      var target := path.value;
      if fs.IsDir(target) || (!fs.IsFile(target) && fs.Exists(target)) {
        return Ok(false);
      }
      var written := fs.Write(target, dump(config));
      if written.Fail? {
        return Err(Os(written.error));
      }
      r := Ok(true);
    }

    /** `import_and_set`: pull the configuration, then write it to `~/.whisperrc`. */
    method ImportAndSet(fs: FileSystem, home: Path, response: Result<C, FetchError>, dump: Option<C> -> string)
      returns (r: Result<bool, FetchOrOsError>)
      requires fs.Valid()
      modifies this, fs
      ensures fs.Valid()
      ensures response.Err? ==> r == Err(Fetch(response.error)) && fs.entries == old(fs.entries)
      ensures response.Ok? ==>
        var w := WriteConfigResult(old(fs.entries), home + [".whisperrc"], dump(Some(response.value)));
        fs.entries == w.entries &&
        r == (match w.result case Ok(b) => Ok(b) case Err(e) => Err(Write(e)))
      ensures response.Ok? ==> config == Some(response.value)
      ensures response.Err? ==> config == old(config)
      ensures url == old(url) && valid == old(valid)
    {
      var pulled := PullConfig(response);
      if pulled.Err? {
        return Err(Fetch(pulled.error));
      }
      var written := WriteConfig(fs, None, home, dump);
      if written.Err? {
        return Err(Write(written.error.error));
      }
      r := Ok(written.value);
    }
  }

  /** What `import_and_set` can raise. */
  datatype FetchOrOsError = Fetch(fetch: FetchError) | Write(write: OsError)
}
