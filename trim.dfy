/**
 * The `trim` subcommand (src/main.rs): parse the URL argument, take its path
 * segments, drop up to `count` of them from the end, and write the remaining
 * segments back, joined with `/`, as the new path.
 *
 * `url::Url::parse` and the normalisation done by `Url::set_path` belong to
 * the url crate: the outcome of the first and the effect of the second are
 * inputs of this model.
 */
module TrimCommand {
  import opened Wrappers
  import opened Errors

  /** clap's `i32` for `--count` / `-n`. */
  newtype Int32 = x: int | -0x8000_0000 <= x < 0x8000_0000

  /** The url crate's `u16` port number. */
  newtype UInt16 = x: int | 0 <= x < 0x1_0000

  /** The authority of a parsed URL, carried along unchanged. */
  datatype Authority = Authority(username: string, password: Option<string>, host: string, port: Option<UInt16>)

  /** The path of a parsed URL as `path_segments()` sees it. */
  datatype Path =
    | Hierarchical(segments: seq<string>)  // the path starts with `/`: `path_segments()` yields these
    | CannotBeABase(text: string)          // e.g. `mailto:…`: `path_segments()` yields nothing
  {
    /** `Url::path_segments`. */
    function Segments(): (r: Option<seq<string>>)
      ensures r.Some? <==> Hierarchical?
    {
      if Hierarchical? then Some(segments) else None
    }
  }

  /** A parsed `url::Url`, which `trim` updates in place. */
  class Url {
    var scheme: string
    var authority: Option<Authority>
    var path: Path
    var query: Option<string>
    var fragment: Option<string>

    constructor (scheme: string, authority: Option<Authority>, path: Path, query: Option<string>, fragment: Option<string>)
      ensures this.scheme == scheme && this.authority == authority && this.path == path
      ensures this.query == query && this.fragment == fragment
    {
      this.scheme := scheme;
      this.authority := authority;
      this.path := path;
      this.query := query;
      this.fragment := fragment;
    }

    /**
     * `Url::set_path`. How the crate normalises `text` into a path is given by
     * `normalise`; nothing but the path changes.
     */
    method SetPath(text: string, normalise: string -> Path)
      modifies this
      ensures path == normalise(text)
      ensures scheme == old(scheme) && authority == old(authority)
      ensures query == old(query) && fragment == old(fragment)
    {
      path := normalise(text);
    }
  }

  /** The number of characters in all of `segs` together. */
  function TotalLength(segs: seq<string>): nat
  {
    if |segs| == 0 then 0 else |segs[0]| + TotalLength(segs[1..])
  }

  /** The number of occurrences of `c` in `s`. */
  function Occurrences(s: string, c: char): nat
  {
    if |s| == 0 then 0 else (if s[0] == c then 1 else 0) + Occurrences(s[1..], c)
  }

  /**
   * `[&str]::join(sep)` with a one-character separator: the segments in order,
   * one separator between each two of them.
   */
  function Join(segs: seq<string>, sep: char): (r: string)
    ensures |segs| == 0 ==> r == ""
    ensures |segs| >= 1 ==> segs[0] <= r
    ensures |segs| >= 1 ==> |r| == TotalLength(segs) + |segs| - 1
  {
    if |segs| == 0 then ""
    else if |segs| == 1 then segs[0]
    else segs[0] + [sep] + Join(segs[1..], sep)
  }

  /**
   * `str::split(sep)`: the pieces between the separators, one more piece than
   * there are separators, none of them holding a separator.
   */
  function Split(s: string, sep: char): (r: seq<string>)
    ensures |r| == Occurrences(s, sep) + 1
    ensures forall i :: 0 <= i < |r| ==> sep !in r[i]
  {
    if |s| == 0 then [""]
    else if s[0] == sep then [""] + Split(s[1..], sep)
    else [[s[0]] + Split(s[1..], sep)[0]] + Split(s[1..], sep)[1..]
  }

  /**
   * What `trim` keeps of `segs` for a given count: the segments left after
   * popping up to `count` of them from the end, stopping when none remain.
   * A count of zero or less pops nothing (the range `0..count` is empty).
   */
  function Trimmed(segs: seq<string>, count: int): (kept: seq<string>)
    ensures kept <= segs
    ensures |segs| - |kept| == if count <= 0 then 0 else if count < |segs| then count else |segs|
  {
    if count <= 0 then segs
    else if count < |segs| then segs[..|segs| - count]
    else []
  }

  /**
   * `trim`. `text` is the URL argument and `parsed` the outcome of
   * `url::Url::parse(text)`; `normalise` is the effect of `set_path` on that URL.
   */
  method Trim(text: string, parsed: Result<Url, UrlError>, count: Int32, normalise: string -> Path)
    returns (outcome: Outcome<Error>)
    modifies if parsed.Success? then {parsed.value} else {}
    ensures parsed.Failure? ==> outcome == Fail(FromUrlError(parsed.error))
    ensures parsed.Success? && old(parsed.value.path).CannotBeABase? ==>
      && outcome == Fail(InvalidArgument("URL has no path: " + text))
      && unchanged(parsed.value)
    ensures parsed.Success? && old(parsed.value.path).Hierarchical? ==>
      && outcome == Pass
      && parsed.value.path == normalise(Join(Trimmed(old(parsed.value.path).segments, count as int), '/'))
      && parsed.value.scheme == old(parsed.value.scheme)
      && parsed.value.authority == old(parsed.value.authority)
      && parsed.value.query == old(parsed.value.query)
      && parsed.value.fragment == old(parsed.value.fragment)
  {
    if parsed.Failure? {
      return Fail(FromUrlError(parsed.error));
    }
    var base := parsed.value;
    var segs := base.path.Segments();
    if segs.None? {
      return Fail(InvalidArgument("URL has no path: " + text));
    }

    // Drain the segment iterator into a vector; `rest` is what the iterator has yet to yield.
    var trim: seq<string> := [];
    var rest := segs.value;
    while rest != []
      invariant trim + rest == segs.value
      decreases |rest|
    {
      trim := trim + [rest[0]];
      rest := rest[1..];
    }
    assert trim == segs.value;

    // Pop up to `count` segments from the end, stopping early once none remain.
    var n := 0;
    while n < count as int
      invariant 0 <= n <= |segs.value|
      invariant n == 0 || n <= count as int
      invariant trim == segs.value[..|segs.value| - n]
      decreases count as int - n
    {
      if |trim| == 0 {
        break;
      }
      trim := trim[..|trim| - 1];
      n := n + 1;
    }
    assert trim == Trimmed(segs.value, count as int);

    base.SetPath(Join(trim, '/'), normalise);
    return Pass;
  }

  /** The message `main` prints for a URL without a path. */
  lemma NoPathMessage(text: string)
    ensures Message(InvalidArgument("URL has no path: " + text)) == "Invalid argument: URL has no path: " + text
    ensures Classify(Message(InvalidArgument("URL has no path: " + text))) == Some(InvalidArgument("URL has no path: " + text))
  {
    ClassifyMessage(InvalidArgument("URL has no path: " + text));
  }

  /** A count of zero or less leaves the segments as they are. */
  lemma TrimmedNonPositive(segs: seq<string>, count: int)
    requires count <= 0
    ensures Trimmed(segs, count) == segs
  {
  }

  /**
   * A count at least the number of segments leaves none, without error, and one
   * more step beyond changes nothing.
   */
  lemma TrimmedBeyondLength(segs: seq<string>, count: int)
    requires count >= |segs|
    ensures Trimmed(segs, count) == []
    ensures Trimmed(segs, count + 1) == Trimmed(segs, count)
  {
  }

  /** A positive count below the length removes exactly that many segments from the end. */
  lemma TrimmedRemovesFromEnd(segs: seq<string>, count: int)
    requires 0 < count < |segs|
    ensures Trimmed(segs, count) + segs[|segs| - count..] == segs
  {
  }

  /** A piece without separators splits to itself. */
  lemma {:induction false} SplitWord(w: string, sep: char)
    requires sep !in w
    ensures Split(w, sep) == [w]
  {
    if |w| > 0 {
      SplitWord(w[1..], sep);
      assert [w[0]] + w[1..] == w;
    }
  }

  /** Splitting `w + sep + rest` yields `w` followed by the pieces of `rest`. */
  lemma {:induction false} SplitCons(w: string, sep: char, rest: string)
    requires sep !in w
    ensures Split(w + [sep] + rest, sep) == [w] + Split(rest, sep)
  {
    if |w| == 0 {
      assert w + [sep] + rest == [sep] + rest;
      assert ([sep] + rest)[1..] == rest;
    } else {
      var s := w + [sep] + rest;
      assert s[0] == w[0];
      assert s[1..] == w[1..] + [sep] + rest;
      SplitCons(w[1..], sep, rest);
      assert [w[0]] + w[1..] == w;
    }
  }

  /**
   * `split` undoes `join` on a non-empty list of segments that contain no
   * separator, as the segments of a parsed path never do.
   */
  lemma {:induction false} SplitJoin(segs: seq<string>, sep: char)
    requires |segs| >= 1
    requires forall i :: 0 <= i < |segs| ==> sep !in segs[i]
    ensures Split(Join(segs, sep), sep) == segs
  {
    if |segs| == 1 {
      SplitWord(segs[0], sep);
    } else {
      SplitJoin(segs[1..], sep);
      SplitCons(segs[0], sep, Join(segs[1..], sep));
      assert [segs[0]] + segs[1..] == segs;
    }
  }

  /**
   * When `set_path` turns its argument into a hierarchical path by splitting
   * it at `/` (which it does only for an argument with no dot segments, nothing
   * to encode and no leading empty segment), the path that `trim` leaves has
   * exactly the kept segments, or the single empty segment of the root path
   * when none are kept.
   */
  lemma TrimmedPathSegments(segs: seq<string>, count: int)
    requires forall i :: 0 <= i < |segs| ==> '/' !in segs[i]
    ensures Trimmed(segs, count) != [] ==> Split(Join(Trimmed(segs, count), '/'), '/') == Trimmed(segs, count)
    ensures Trimmed(segs, count) == [] ==> Split(Join(Trimmed(segs, count), '/'), '/') == [""]
  {
    var kept := Trimmed(segs, count);
    if kept != [] {
      forall i | 0 <= i < |kept| ensures '/' !in kept[i] {
        assert kept[i] == segs[i];
      }
      SplitJoin(kept, '/');
    }
  }
}
