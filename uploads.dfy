/** The upload configuration: which directory an upload goes to, chosen from
    the request path, and the name it is stored under. */
module Uploads {
  import opened Common
  import opened Entities
  import Decimal

  /** `s.split('/')`: the pieces between slashes, empty ones included; the
      empty string gives one empty piece. */
  function Split(s: string): (r: seq<string>)
    ensures |r| >= 1
    ensures forall i :: 0 <= i < |r| ==> '/' !in r[i]
  {
    if s == [] then [""]
    else if s[0] == '/' then [""] + Split(s[1..])
    else Prepend(s[0], Split(s[1..]))
  }

  /** `c` added at the front of the first piece. */
  function Prepend(c: char, pieces: seq<string>): (r: seq<string>)
    requires |pieces| >= 1
    ensures |r| == |pieces| && r[0] == [c] + pieces[0] && r[1..] == pieces[1..]
  {
    [[c] + pieces[0]] + pieces[1..]
  }

  lemma PrependConcat(c: char, a: seq<string>, b: seq<string>)
    requires |a| >= 1
    ensures Prepend(c, a + b) == Prepend(c, a) + b
  {
    assert (a + b)[0] == a[0];
    assert (a + b)[1..] == a[1..] + b;
  }

  /** `pieces.join('/')`. */
  function Join(pieces: seq<string>): string
    requires |pieces| >= 1
  {
    if |pieces| == 1 then pieces[0] else pieces[0] + "/" + Join(pieces[1..])
  }

  /** Splitting then joining gives the path back. */
  lemma {:induction false} JoinSplit(s: string)
    ensures Join(Split(s)) == s
  {
    if s == [] {
    } else if s[0] == '/' {
      JoinSplit(s[1..]);
      assert Split(s)[1..] == Split(s[1..]);
    } else {
      JoinSplit(s[1..]);
      var rest := Split(s[1..]);
      if |rest| == 1 {
        assert s == [s[0]] + rest[0];
      } else {
        assert Split(s)[1..] == rest[1..];
        assert s == [s[0]] + s[1..];
      }
    }
  }

  /** A slash in the middle splits the path into the pieces of each side. */
  lemma {:induction false} SplitConcat(x: string, y: string)
    ensures Split(x + "/" + y) == Split(x) + Split(y)
  {
    var z := x + "/" + y;
    if x == [] {
      assert z == "/" + y;
      assert z[1..] == y;
    } else {
      var tail := x[1..] + "/" + y;
      assert z == [x[0]] + tail;
      assert z[0] == x[0] && z[1..] == tail;
      SplitConcat(x[1..], y);
      if x[0] != '/' {
        PrependConcat(x[0], Split(x[1..]), Split(y));
      } else {
        assert [""] + (Split(x[1..]) + Split(y)) == ([""] + Split(x[1..])) + Split(y);
      }
    }
  }

  lemma SplitNoSlash(m: string)
    requires '/' !in m
    ensures Split(m) == [m]
  {
    if m != [] {
      SplitNoSlash(m[1..]);
      assert m == [m[0]] + m[1..];
    }
  }

  /** `.filter(Boolean)` on the pieces: the empty ones dropped, order kept. */
  function NonEmpty(xs: seq<string>): (r: seq<string>)
    ensures forall i :: 0 <= i < |r| ==> r[i] != "" && r[i] in xs
  {
    if xs == [] then []
    else (if xs[0] == "" then [] else [xs[0]]) + NonEmpty(xs[1..])
  }

  lemma {:induction false} NonEmptyConcat(xs: seq<string>, ys: seq<string>)
    ensures NonEmpty(xs + ys) == NonEmpty(xs) + NonEmpty(ys)
  {
    if xs == [] {
      assert xs + ys == ys;
    } else {
      ConsConcat(xs, ys);
      NonEmptyConcat(xs[1..], ys);
      var head := if xs[0] == "" then [] else [xs[0]];
      calc {
        NonEmpty(xs + ys);
        head + NonEmpty(xs[1..] + ys);
        head + (NonEmpty(xs[1..]) + NonEmpty(ys));
        (head + NonEmpty(xs[1..])) + NonEmpty(ys);
        NonEmpty(xs) + NonEmpty(ys);
      }
    }
  }

  /** `const [mainPath] = path.split('/').filter(Boolean)`: the first
      non-empty segment, `None` (undefined) when there is none. */
  function MainPath(requestPath: string): (r: Option<string>)
    ensures r.Some? ==> r.value != "" && '/' !in r.value
  {
    var segments := NonEmpty(Split(requestPath));
    if segments == [] then None else Some(segments[0])
  }

  /** The directories an upload can be stored in. The two named ones sit two
      levels above the helpers directory, the default one only one level
      above it. */
  datatype Destination = CatalogsDir | ArticlesDir | DefaultDir
  {
    function RelativePath(): string
    {
      match this
      case CatalogsDir => "../../uploads/catalogs"
      case ArticlesDir => "../../uploads/articles"
      case DefaultDir => "../uploads/default"
    }
  }

  /** `getDestinationPath`. */
  function DestinationPath(requestPath: string): (d: Destination)
    ensures d == CatalogsDir <==> MainPath(requestPath) == Some("catalogs")
    ensures d == ArticlesDir <==> MainPath(requestPath) == Some("articles")
  {
    match MainPath(requestPath)
    case Some(m) =>
      if m == "catalogs" then CatalogsDir
      else if m == "articles" then ArticlesDir
      else DefaultDir
    case None => DefaultDir
  }

  /** The first segment decides: a path that starts with segment `m`, after
      any number of slashes, has `m` as its main path whatever follows. */
  lemma MainPathOfSegment(m: string, rest: string)
    requires m != "" && '/' !in m
    ensures MainPath(m + "/" + rest) == Some(m)
    ensures MainPath(m) == Some(m)
  {
    SplitConcat(m, rest);
    SplitNoSlash(m);
    NonEmptyConcat([m], Split(rest));
  }

  /** A leading slash does not change the destination. */
  lemma LeadingSlash(requestPath: string)
    ensures MainPath("/" + requestPath) == MainPath(requestPath)
    ensures DestinationPath("/" + requestPath) == DestinationPath(requestPath)
  {
    assert ("/" + requestPath)[1..] == requestPath;
  }

  /** A doubled slash anywhere does not change the destination. */
  lemma DoubledSlash(x: string, y: string)
    ensures MainPath(x + "//" + y) == MainPath(x + "/" + y)
    ensures DestinationPath(x + "//" + y) == DestinationPath(x + "/" + y)
  {
    assert x + "//" + y == x + "/" + ("/" + y);
    SplitConcat(x, "/" + y);
    SplitConcat(x, y);
    assert ("/" + y)[1..] == y;
    assert Split("/" + y) == [""] + Split(y);
    NonEmptyConcat(Split(x), [""] + Split(y));
    NonEmptyConcat(Split(x), Split(y));
    NonEmptyConcat([""], Split(y));
  }

  /** An empty request path, or one made only of slashes, gets the default
      directory. */
  lemma {:induction false} OnlySlashes(n: nat)
    ensures MainPath(seq(n, _ => '/')) == None
    ensures DestinationPath(seq(n, _ => '/')) == DefaultDir
  {
    if n > 0 {
      OnlySlashes(n - 1);
      assert seq(n, _ => '/') == "/" + seq(n - 1, _ => '/');
      LeadingSlash(seq(n - 1, _ => '/'));
    }
  }

  /** The multer `filename` callback: the upload time in milliseconds, an
      underscore, then the original name. The time is a parameter here. */
  function StoredFileName(timestamp: nat, originalname: string): (s: string)
    ensures |s| > |originalname| + 1
  {
    Decimal.NatToString(timestamp) + "_" + originalname
  }

  /** The stored name gives back both of its parts: `parseInt` reads the
      time from its front and the original name follows the first `_`. */
  lemma StoredFileNameParts(timestamp: nat, originalname: string)
    ensures Decimal.ParseInt(StoredFileName(timestamp, originalname)) == Some(timestamp)
    ensures Decimal.DigitPrefix(StoredFileName(timestamp, originalname)) == Decimal.NatToString(timestamp)
    ensures StoredFileName(timestamp, originalname)[|Decimal.NatToString(timestamp)| + 1..] == originalname
  {
    var digits := Decimal.NatToString(timestamp);
    var tail := "_" + originalname;
    assert !Decimal.IsDigit(tail[0]);
    assert StoredFileName(timestamp, originalname) == digits + tail;
    Decimal.ParseIntOfNat(timestamp, tail);
    Decimal.DigitPrefixOfDigits(digits, tail);
  }

  /** Two uploads get the same stored name only with the same time and the
      same original name. */
  lemma StoredFileNameInjective(t1: nat, n1: string, t2: nat, n2: string)
    requires StoredFileName(t1, n1) == StoredFileName(t2, n2)
    ensures t1 == t2 && n1 == n2
  {
    StoredFileNameParts(t1, n1);
    StoredFileNameParts(t2, n2);
    Decimal.NatToStringInjective(t1, t2);
  }

  /** What the controllers read from `req.file`: the stored name, the original
      name, and `fileType` copied from the upload's mimetype. */
  function Described(timestamp: nat, originalname: string, mimetype: string): (f: Image)
    ensures f.filename == StoredFileName(timestamp, originalname)
    ensures f.originalname == originalname && f.fileType == mimetype
  {
    Image(StoredFileName(timestamp, originalname), originalname, mimetype)
  }

  /** The controllers' "invalid image" check fails exactly when the original
      name or the mimetype is empty; the stored name never is. */
  lemma DescribedComplete(timestamp: nat, originalname: string, mimetype: string)
    ensures ImageComplete(Described(timestamp, originalname, mimetype)) <==> originalname != "" && mimetype != ""
  {
  }
}
