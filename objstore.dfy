/**
  The parts of the Bucket contract's option framework that the providers
  in this model call: iteration options, upload options and the
  attribute records handed to listing callbacks.  Only the behaviour the
  providers rely on is captured (which option types exist, that
  validation names the first unsupported one, and what applying a list of
  options sets).
 */
module Objstore {
  import opened Wrappers

  /** One byte of an object's payload. */
  type Byte = x: int | 0 <= x < 256

  /** The bounds of Go's int64 and uint64. */
  const MinInt64: int := -0x8000_0000_0000_0000
  const MaxInt64: int := 0x7FFF_FFFF_FFFF_FFFF
  const MaxUint64: int := 0xFFFF_FFFF_FFFF_FFFF

  predicate IsInt64(x: int) { MinInt64 <= x <= MaxInt64 }

  /**
    The int64 that Go's two's-complement arithmetic leaves for the
    mathematical result `x`: `x` itself when it fits, otherwise `x` moved
    by a multiple of 2^64 into the int64 range.
   */
  function Wrap64(x: int): (v: int)
    ensures IsInt64(v)
    ensures (v - x) % (MaxUint64 + 1) == 0
    ensures IsInt64(x) ==> v == x
    ensures MaxInt64 < x <= MaxInt64 + MaxUint64 + 1 ==> v == x - (MaxUint64 + 1)
    ensures MinInt64 - (MaxUint64 + 1) <= x < MinInt64 ==> v == x + (MaxUint64 + 1)
  {
    (x - MinInt64) % (MaxUint64 + 1) + MinInt64
  }

  /** The tags of the listing options. */
  datatype IterOptionType = Recursive | UpdatedAt

  /** The flags a list of listing options switches on. */
  datatype IterParams = IterParams(recursive: bool, lastModified: bool)

  function ApplyIterOptions(opts: seq<IterOptionType>): (p: IterParams)
    ensures p.recursive <==> Recursive in opts
    ensures p.lastModified <==> UpdatedAt in opts
  {
    IterParams(Recursive in opts, UpdatedAt in opts)
  }

  /** The first requested option whose type is not in `supported`, if any. */
  function FirstUnsupported<T(==)>(supported: seq<T>, opts: seq<T>): (r: Option<T>)
    ensures r == None <==> forall i :: 0 <= i < |opts| ==> opts[i] in supported
    ensures r.Some? ==> r.value in opts && r.value !in supported
  {
    if opts == [] then None
    else if opts[0] !in supported then Some(opts[0])
    else FirstUnsupported(supported, opts[1..])
  }

  /** An entry handed to a listing callback: its name and, on request, its modification time. */
  datatype IterObjectAttributes = IterObjectAttributes(name: string, lastModified: Option<int>)

  /** The kinds of version tokens; `Generation` stands for every kind that is not an ETag. */
  datatype ObjectVersionType = ETag | Generation

  datatype ObjectVersion = ObjectVersion(versionType: ObjectVersionType, value: string)

  datatype UploadOptionType = IfNotExists | IfMatch | IfNotMatch

  /** An upload option as a caller builds it. */
  datatype UploadOption = WithIfNotExists | WithIfMatch(ifMatchVersion: ObjectVersion) | WithIfNotMatch(ifNotMatchVersion: ObjectVersion)

  function UploadOptionTypeOf(o: UploadOption): UploadOptionType
  {
    match o
    case WithIfNotExists => IfNotExists
    case WithIfMatch(_) => IfMatch
    case WithIfNotMatch(_) => IfNotMatch
  }

  function UploadOptionTypes(opts: seq<UploadOption>): (r: seq<UploadOptionType>)
    ensures |r| == |opts|
    ensures forall i :: 0 <= i < |opts| ==> r[i] == UploadOptionTypeOf(opts[i])
  {
    if opts == [] then [] else [UploadOptionTypeOf(opts[0])] + UploadOptionTypes(opts[1..])
  }

  /** The optimistic-concurrency preconditions of one upload. */
  datatype UploadObjectParams = UploadObjectParams(condition: Option<ObjectVersion>, ifNotExists: bool, ifMatch: bool, ifNotMatch: bool)

  const NoUploadParams := UploadObjectParams(None, false, false, false)

  function ApplyUploadOption(p: UploadObjectParams, o: UploadOption): UploadObjectParams
  {
    match o
    case WithIfNotExists => p.(ifNotExists := true)
    case WithIfMatch(v) => p.(ifMatch := true, condition := Some(v))
    case WithIfNotMatch(v) => p.(ifNotMatch := true, condition := Some(v))
  }

  /** Applies the options in order, starting from no preconditions. */
  function ApplyUploadOptions(opts: seq<UploadOption>): UploadObjectParams
  {
    if opts == [] then NoUploadParams
    else ApplyUploadOption(ApplyUploadOptions(opts[..|opts| - 1]), opts[|opts| - 1])
  }

  /** The delimiter that models directories in object names. */
  const DirDelim: string := "/"

  function TrimSuffix(s: string, suffix: string): string
  {
    if |suffix| <= |s| && s[|s| - |suffix|..] == suffix then s[..|s| - |suffix|] else s
  }

  /**
    The listing prefix the S3 and OBS providers derive from a directory
    name: a non-empty name gets exactly one delimiter added after one
    trailing delimiter (if any) is dropped; the empty name is kept.
   */
  function DirPrefix(dir: string): string
  {
    if dir == "" then "" else TrimSuffix(dir, DirDelim) + DirDelim
  }

  lemma DirPrefixShape(dir: string)
    ensures dir == "" ==> DirPrefix(dir) == ""
    ensures dir != "" ==> |DirPrefix(dir)| > 0 && DirPrefix(dir)[|DirPrefix(dir)| - 1] == '/'
    ensures dir != "" && dir[|dir| - 1] == '/' ==> DirPrefix(dir) == dir
    ensures dir != "" && dir[|dir| - 1] != '/' ==> DirPrefix(dir) == dir + "/"
  {
    if dir != "" && dir[|dir| - 1] == '/' {
      assert dir[|dir| - 1..] == "/";
      assert dir[..|dir| - 1] + "/" == dir;
    }
  }

  /** Normalising a prefix twice is normalising it once. */
  lemma DirPrefixIdempotent(dir: string)
    ensures DirPrefix(DirPrefix(dir)) == DirPrefix(dir)
  {
    DirPrefixShape(dir);
    if dir != "" {
      DirPrefixShape(DirPrefix(dir));
    }
  }

  /**
    Feeding entries to a listing callback in order until it returns an
    error: the entries it was called with (the failing one last) and the
    error, or all entries and no error.
   */
  function Visit<T>(items: seq<T>, f: T -> Option<string>): (r: (seq<T>, Option<string>))
    ensures r.0 <= items
    ensures r.1.None? ==> r.0 == items
    ensures r.1.Some? ==> r.0 != []
  {
    if items == [] then ([], None)
    else match f(items[0])
      case Some(e) => ([items[0]], Some(e))
      case None =>
        var rest := Visit(items[1..], f);
        ([items[0]] + rest.0, rest.1)
  }

  /**
    The callback succeeds on every visited entry but the last; the run
    fails exactly when the callback fails on some entry, and then with the
    error of the last entry visited.
   */
  lemma {:induction false} VisitStopsAtFirstError<T>(items: seq<T>, f: T -> Option<string>)
    ensures var r := Visit(items, f);
      (forall i :: 0 <= i < |r.0| - 1 ==> f(r.0[i]).None?) &&
      (r.1.None? <==> forall i :: 0 <= i < |items| ==> f(items[i]).None?) &&
      (r.1.Some? ==> r.0 != [] && f(r.0[|r.0| - 1]) == r.1)
  {
    if items != [] && f(items[0]).None? {
      VisitStopsAtFirstError(items[1..], f);
      var rest := Visit(items[1..], f);
      assert Visit(items, f).0 == [items[0]] + rest.0;
      forall i | 0 < i < |items| ensures items[i] == items[1..][i - 1] {
      }
    }
  }

  /** Visiting a concatenation visits the second part only if the first part raised no error. */
  lemma {:induction false} VisitAppend<T>(a: seq<T>, b: seq<T>, f: T -> Option<string>)
    ensures Visit(a + b, f) ==
      (if Visit(a, f).1.Some? then Visit(a, f) else (a + Visit(b, f).0, Visit(b, f).1))
  {
    if a == [] {
      assert a + b == b;
      assert a + Visit(b, f).0 == Visit(b, f).0;
    } else {
      var ab := a + b;
      assert ab != [] && ab[0] == a[0] && ab[1..] == a[1..] + b;
      if f(a[0]).None? {
        VisitAppend(a[1..], b, f);
        var tail := Visit(a[1..], f);
        assert Visit(ab, f) == ([a[0]] + Visit(a[1..] + b, f).0, Visit(a[1..] + b, f).1);
        assert Visit(a, f) == ([a[0]] + tail.0, tail.1);
        if tail.1.None? {
          assert [a[0]] + (a[1..] + Visit(b, f).0) == a + Visit(b, f).0;
        }
      } else {
        assert Visit(ab, f) == Visit(a, f);
      }
    }
  }

  /** Visiting one more entry after a clean run. */
  lemma VisitSnoc<T>(a: seq<T>, x: T, f: T -> Option<string>)
    requires Visit(a, f).1.None?
    ensures Visit(a + [x], f) == (a + [x], f(x))
  {
    VisitAppend(a, [x], f);
  }

  /** Visiting a single entry calls the callback once. */
  lemma VisitSingle<T>(x: T, f: T -> Option<string>)
    ensures Visit([x], f) == ([x], f(x))
  {
    assert [x][1..] == [];
  }

  /**
    One step of a visiting loop: when the entries still to visit start
    with `here`, visiting `here` extends the visited prefix and either
    stops with its error or leaves the rest to visit.
   */
  lemma VisitStep<T>(all: seq<T>, visited: seq<T>, here: seq<T>, rest: seq<T>, f: T -> Option<string>)
    requires Visit(all, f) == (visited + Visit(here + rest, f).0, Visit(here + rest, f).1)
    ensures Visit(here, f).1.Some? ==> Visit(all, f) == (visited + Visit(here, f).0, Visit(here, f).1)
    ensures Visit(here, f).1.None? ==>
      Visit(all, f) == ((visited + Visit(here, f).0) + Visit(rest, f).0, Visit(rest, f).1)
  {
    VisitAppend(here, rest, f);
    ResumeVisit(visited, here, Visit(here, f), Visit(rest, f), Visit(here + rest, f));
  }

  lemma ConcatAssoc<T>(a: seq<T>, b: seq<T>, c: seq<T>)
    ensures (a + b) + c == a + (b + c)
  {
  }

  /** The bookkeeping behind VisitStep, on the visit outcomes alone. */
  lemma ResumeVisit<T>(visited: seq<T>, here: seq<T>, h: (seq<T>, Option<string>),
                       tail: (seq<T>, Option<string>), whole: (seq<T>, Option<string>))
    requires h.1.None? ==> h.0 == here
    requires whole == (if h.1.Some? then h else (here + tail.0, tail.1))
    ensures h.1.Some? ==> (visited + whole.0, whole.1) == (visited + h.0, h.1)
    ensures h.1.None? ==> (visited + whole.0, whole.1) == ((visited + h.0) + tail.0, tail.1)
  {
    if h.1.None? {
      assert visited + (here + tail.0) == (visited + here) + tail.0;
    }
  }
}
