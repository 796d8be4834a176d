/**
 * The command line of the scripts: the option loop of `main` (after getopt
 * has split argv into (option, argument) pairs), the `-p` page-range parser
 * and `Gallica.parse_url`. `sys.exit(n)` is an `Err(n)` result.
 */
module Cli {
  import opened Wrappers
  import opened Text

  /** An inclusive range of page numbers. */
  datatype PageRange = PageRange(first: nat, last: nat)

  /**
   * The `int` conversions of the `-p` branch: "a-b" is split on "-" and
   * unpacked into exactly two numbers; without "-" the one number is both
   * ends. None stands for the ValueError raised by `int` or the unpacking.
   */
  function PageBounds(arg: string): Option<PageRange> {
    if '-' in arg then
      var parts := Split(arg, '-');
      if |parts| != 2 || ParseInt(parts[0]).None? || ParseInt(parts[1]).None? then None
      else Some(PageRange(ParseInt(parts[0]).value, ParseInt(parts[1]).value))
    else if ParseInt(arg).None? then None
    else Some(PageRange(ParseInt(arg).value, ParseInt(arg).value))
  }

  /**
   * The whole `-p` branch: the bounds, then the two checks that raise
   * ValueError (an empty range, then a first page of 0). None is "Invalid
   * page syntax" and exit status 2.
   */
  function ParsePages(arg: string): (r: Option<PageRange>)
    ensures r.Some? ==> 1 <= r.value.first <= r.value.last
  {
    match PageBounds(arg)
    case None => None
    case Some(b) =>
      if b.last < b.first then None
      else if b.first == 0 then None
      else Some(b)
  }

  /**
   * Whatever `-p` accepts is one number, or two numbers joined by a single
   * "-", and the range is read from them: any other text exits with status 2.
   */
  lemma ParsePagesAccepted(arg: string)
    requires ParsePages(arg).Some?
    ensures var r := ParsePages(arg).value;
      '-' !in arg ==> ParseInt(arg) == Some(r.first) && r.first == r.last
    ensures var r := ParsePages(arg).value;
      '-' in arg ==> exists i :: (0 <= i < |arg| && arg[i] == '-' && '-' !in arg[..i] && '-' !in arg[i + 1..]
                                  && ParseInt(arg[..i]) == Some(r.first) && ParseInt(arg[i + 1..]) == Some(r.last))
  {
    if '-' in arg {
      var parts := Split(arg, '-');
      JoinSplit(arg, '-');
      assert arg == parts[0] + ['-'] + parts[1] by {
        assert parts[1..] == [parts[1]];
      }
      var i := |parts[0]|;
      assert arg[..i] == parts[0] && arg[i + 1..] == parts[1] && arg[i] == '-';
    }
  }

  /** Text `int` accepts is digits after an optional "+": it has no "-". */
  lemma NumeralHasNoDash(s: string)
    requires ParseInt(s).Some?
    ensures '-' !in s
  {
    forall i | 0 <= i < |s|
      ensures s[i] != '-'
    {
      if i > 0 || s[0] != '+' {
        var d := if |s| > 0 && s[0] == '+' then s[1..] else s;
        assert s[i] == d[i - |s| + |d|];
      }
    }
  }

  /**
   * Two numbers `int` accepts, in any spelling ("01", "+1", "7"), joined by
   * "-": accepted exactly when 1 <= a <= b, giving the range a..b.
   */
  lemma ParsePagesRange(s: string, t: string)
    requires ParseInt(s).Some? && ParseInt(t).Some?
    ensures var a, b := ParseInt(s).value, ParseInt(t).value;
      ParsePages(s + "-" + t) == if 1 <= a <= b then Some(PageRange(a, b)) else None
  {
    NumeralHasNoDash(s);
    NumeralHasNoDash(t);
    assert s + "-" + t == s + ['-'] + t;
    assert (s + "-" + t)[|s|] == '-';
    SplitCons(s, '-', t);
    SplitNoSep(t, '-');
  }

  /** One number `int` accepts, in any spelling: accepted exactly when a >= 1, giving a..a. */
  lemma ParsePagesSingle(s: string)
    requires ParseInt(s).Some?
    ensures var a := ParseInt(s).value;
      ParsePages(s) == if 1 <= a then Some(PageRange(a, a)) else None
  {
    NumeralHasNoDash(s);
  }

  /** In particular "str(a)-str(b)" and "str(a)" give a..b and a..a when the range is valid. */
  lemma ParsePagesCanonical(a: nat, b: nat)
    ensures ParsePages(NatToString(a) + "-" + NatToString(b)) == if 1 <= a <= b then Some(PageRange(a, b)) else None
    ensures ParsePages(NatToString(a)) == if 1 <= a then Some(PageRange(a, a)) else None
  {
    ParseNatToString(a);
    ParseNatToString(b);
    ParsePagesRange(NatToString(a), NatToString(b));
    ParsePagesSingle(NatToString(a));
  }

  /** Two or more dashes give three or more parts, and the unpacking fails. */
  lemma ParsePagesExtraDash(arg: string)
    requires Count(arg, '-') >= 2
    ensures ParsePages(arg) == None
  {
    CountIn(arg, '-');
  }

  lemma {:induction false} CountIn(s: string, c: char)
    ensures Count(s, c) > 0 <==> c in s
    decreases |s|
  {
    if s != [] {
      CountIn(s[1..], c);
      assert s == [s[0]] + s[1..];
    }
  }

  /** The variables of `main` the option loop sets. */
  datatype Settings = Settings(url: string, output: string, pages: PageRange)

  /** `url = ''`, `output_filename = "gallica"`, `page_min, page_max = (1, 1)`. */
  const Defaults := Settings("", "gallica", PageRange(1, 1))

  /**
   * The single-page script's `url = ''` and `outputfile = "out.jpg"`; it has
   * no `-p` option (getopt rejects one before the loop), so its pages are never read.
   */
  const LegacyDefaults := Settings("", "out.jpg", PageRange(1, 1))

  /** One pass of the option loop: `-h` exits with status 0, a bad `-p` with 2. */
  function ApplyOption(s: Settings, opt: string, arg: string): Result<Settings, nat> {
    if opt == "-h" then Err(0)
    else if opt == "-u" || opt == "--url" then Ok(s.(url := arg))
    else if opt == "-o" || opt == "--ofile" then Ok(s.(output := arg))
    else if opt == "-p" || opt == "--pages" then
      match ParsePages(arg)
      case None => Err(2)
      case Some(r) => Ok(s.(pages := r))
    else Ok(s)
  }

  /** The option loop from settings s over opts, stopping at the first exit. */
  function Options(s: Settings, opts: seq<(string, string)>): Result<Settings, nat>
    decreases |opts|
  {
    if opts == [] then Ok(s)
    else
      match ApplyOption(s, opts[0].0, opts[0].1)
      case Err(code) => Err(code)
      case Ok(t) => Options(t, opts[1..])
  }

  /** The option loop, then "Missing Url" (exit 2) when no url was given. */
  function SettingsOf(defaults: Settings, opts: seq<(string, string)>): Result<Settings, nat> {
    match Options(defaults, opts)
    case Err(code) => Err(code)
    case Ok(s) => if s.url == "" then Err(2) else Ok(s)
  }

  /** The `for opt, arg in opts` loop of `main` and the url check after it. */
  method Configure(defaults: Settings, opts: seq<(string, string)>) returns (r: Result<Settings, nat>)
    ensures r == SettingsOf(defaults, opts)
    ensures r.Ok? ==> r.value.url != ""
  {
    var s := defaults;
    for i := 0 to |opts|
      invariant Options(defaults, opts) == Options(s, opts[i..])
    {
      assert opts[i..][1..] == opts[i + 1..];
      var (opt, arg) := opts[i];
      if opt == "-h" {
        return Err(0);
      } else if opt == "-u" || opt == "--url" {
        s := s.(url := arg);
      } else if opt == "-o" || opt == "--ofile" {
        s := s.(output := arg);
      } else if opt == "-p" || opt == "--pages" {
        var pages := ParsePages(arg);
        if pages.None? {
          return Err(2);
        }
        s := s.(pages := pages.value);
      }
    }
    if s.url == "" {
      return Err(2);
    }
    return Ok(s);
  }

  /** Options other than `-p` leave the page range as it was: the default is 1..1. */
  lemma {:induction false} PagesUnlessGiven(s: Settings, opts: seq<(string, string)>)
    requires forall i :: 0 <= i < |opts| ==> opts[i].0 != "-p" && opts[i].0 != "--pages"
    ensures Options(s, opts).Ok? ==> Options(s, opts).value.pages == s.pages
    decreases |opts|
  {
    if opts != [] {
      var t := ApplyOption(s, opts[0].0, opts[0].1);
      if t.Ok? {
        PagesUnlessGiven(t.value, opts[1..]);
      }
    }
  }

  lemma {:induction false} OutputUnlessGiven(s: Settings, opts: seq<(string, string)>)
    requires forall i :: 0 <= i < |opts| ==> opts[i].0 != "-o" && opts[i].0 != "--ofile"
    ensures Options(s, opts).Ok? ==> Options(s, opts).value.output == s.output
    decreases |opts|
  {
    if opts != [] {
      var t := ApplyOption(s, opts[0].0, opts[0].1);
      if t.Ok? {
        OutputUnlessGiven(t.value, opts[1..]);
      }
    }
  }

  /**
   * The single-page script's option loop (getopt lets no `-p` through):
   * without `-o` the picture is written to "out.jpg", and a run needs `-u`.
   */
  lemma LegacyOutputDefault(opts: seq<(string, string)>)
    requires forall i :: 0 <= i < |opts| ==> opts[i].0 != "-p" && opts[i].0 != "--pages"
    requires forall i :: 0 <= i < |opts| ==> opts[i].0 != "-o" && opts[i].0 != "--ofile"
    ensures SettingsOf(LegacyDefaults, opts).Ok? ==>
      SettingsOf(LegacyDefaults, opts).value.output == "out.jpg" && SettingsOf(LegacyDefaults, opts).value.url != ""
  {
    OutputUnlessGiven(LegacyDefaults, opts);
  }

  /** Without `-u`, `main` always stops: "Missing Url", or an earlier exit. */
  lemma {:induction false} UrlRequired(defaults: Settings, opts: seq<(string, string)>)
    requires defaults.url == ""
    requires forall i :: 0 <= i < |opts| ==> opts[i].0 != "-u" && opts[i].0 != "--url"
    ensures SettingsOf(defaults, opts).Err?
  {
    UrlUnlessGiven(defaults, opts);
  }

  lemma {:induction false} UrlUnlessGiven(s: Settings, opts: seq<(string, string)>)
    requires forall i :: 0 <= i < |opts| ==> opts[i].0 != "-u" && opts[i].0 != "--url"
    ensures Options(s, opts).Ok? ==> Options(s, opts).value.url == s.url
    decreases |opts|
  {
    if opts != [] {
      var t := ApplyOption(s, opts[0].0, opts[0].1);
      if t.Ok? {
        UrlUnlessGiven(t.value, opts[1..]);
      }
    }
  }

  /**
   * A malformed `-p` exits with status 2, unless `-h` came first (status 0).
   * The options after it are never looked at.
   */
  lemma {:induction false} BadPagesExit(s: Settings, opts: seq<(string, string)>, k: nat)
    requires k < |opts| && opts[k].0 in {"-p", "--pages"} && ParsePages(opts[k].1).None?
    requires forall i :: 0 <= i < k ==> opts[i].0 != "-h"
    ensures Options(s, opts) == Err(2)
    decreases k
  {
    if k > 0 {
      var t := ApplyOption(s, opts[0].0, opts[0].1);
      if t.Ok? {
        BadPagesExit(t.value, opts[1..], k - 1);
      }
    }
  }

  /**
   * `parse_url` on the path of the url: the fourth "/"-separated segment up
   * to its first ".", or "Invalid Url" and exit status 2 when the path has
   * fewer than four segments.
   */
  function ParseUrl(path: string): (r: Result<string, nat>)
    ensures r.Err? <==> Count(path, '/') < 3
    ensures r.Err? ==> r.error == 2
    ensures r.Ok? ==> '.' !in r.value
    ensures r.Ok? ==> var segment := Split(path, '/')[3];
      |r.value| <= |segment| && segment[..|r.value|] == r.value
      && (|r.value| < |segment| ==> segment[|r.value|] == '.')
  {
    var segments := Split(path, '/');
    if |segments| < 4 then Err(2)
    else
      SplitFirst(segments[3], '.');
      Ok(Split(segments[3], '.')[0])
  }

  /** The id of a document path "/p1/p2/id.ext", as on gallica.bnf.fr ("/ark:/12148/id.item"). */
  lemma ParseDocumentPath(p1: string, p2: string, id: string, ext: string)
    requires '/' !in p1 && '/' !in p2 && '/' !in id && '/' !in ext && '.' !in id
    ensures ParseUrl("/" + p1 + "/" + p2 + "/" + id + "." + ext) == Ok(id)
  {
    var last := id + "." + ext;
    assert Split(last, '.')[0] == id by {
      assert last == id + ['.'] + ext;
      SplitCons(id, '.', ext);
    }
    assert '/' !in last;
    var tail := p2 + ['/'] + last;
    var rest := p1 + ['/'] + tail;
    assert Split(rest, '/') == [p1, p2, last] by {
      SplitCons(p2, '/', last);
      SplitNoSep(last, '/');
      SplitCons(p1, '/', tail);
    }
    assert "/" + p1 + "/" + p2 + "/" + id + "." + ext == [] + ['/'] + rest;
    SplitCons([], '/', rest);
  }
}
