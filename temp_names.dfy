/** Generation of the most-likely-unique temporary names the tests use for
    buckets, objects, directories and files. The random draw is an argument,
    so every name is a function of its inputs. */
module TempNames {
  import Numerals
  import Encoding

  /** The storage providers' limit on a bucket name. */
  const MAX_BUCKET_LENGTH: nat := 63

  /** Room left for the name body: the separator '-' and 8 hex digits follow. */
  const BODY_LIMIT: nat := MAX_BUCKET_LENGTH - 9

  /** A value of random.randrange(256**4). */
  type Rand32 = r: nat | r < 0x1_0000_0000

  /** '%08x' % r: the random part of every temporary name. */
  function MakeRandomTestString(r: Rand32): (s: string)
    ensures |s| == 8 && Numerals.AllDigits(s, 16)
    ensures Numerals.Parse(s, 16) == r
  {
    assert Numerals.Pow(16, 8) == 0x1_0000_0000;
    Numerals.ParseFormatPadded(r, 16, 8);
    Numerals.FormatPadded(r, 16, 8)
  }

  /** Every string of 8 lower-case hex digits is the suffix of exactly one
      draw, so the suffix carries all 32 random bits. */
  lemma RandomTestStringOnto(s: string)
    requires |s| == 8 && Numerals.AllDigits(s, 16)
    ensures Numerals.Parse(s, 16) < 0x1_0000_0000
    ensures MakeRandomTestString(Numerals.Parse(s, 16)) == s
  {
    assert Numerals.Pow(16, 8) == 0x1_0000_0000;
    Numerals.FormatPaddedParse(s, 16);
  }

  /** '{prefix}gsutil-test-{method}-{kind}', before truncation. */
  function FullName(prefix: string, testMethod: string, kind: string): string {
    prefix + "gsutil-test-" + testMethod + "-" + kind
  }

  /** name[:MAX_BUCKET_LENGTH-9] */
  function NameBody(prefix: string, testMethod: string, kind: string): string {
    var full := FullName(prefix, testMethod, kind);
    if |full| <= BODY_LIMIT then full else full[..BODY_LIMIT]
  }

  /** The body is the longest prefix of the full name that fits the limit. */
  lemma NameBodyIsPrefix(prefix: string, testMethod: string, kind: string)
    ensures var full := FullName(prefix, testMethod, kind);
      var body := NameBody(prefix, testMethod, kind);
      |body| == (if |full| < BODY_LIMIT then |full| else BODY_LIMIT) && full[..|body|] == body
  {
  }

  /** MakeTempName: the truncated body, '-', and the random suffix. For a
      bucket the result goes through the name coercion of the storage test
      utilities, which is passed in and about which nothing is claimed. */
  function MakeTempName(testMethod: string, kind: string, prefix: string, r: Rand32,
                        makeBucketNameValid: string -> string): string
  {
    var name := NameBody(prefix, testMethod, kind) + "-" + MakeRandomTestString(r);
    if kind == "bucket" then makeBucketNameValid(name) else name
  }

  /** A (non-bucket) temporary name is at most MAX_BUCKET_LENGTH long and
      ends in '-' and the full random suffix: truncation only ever shortens
      the body. */
  lemma TempNameShape(testMethod: string, kind: string, prefix: string, r: Rand32,
                      makeBucketNameValid: string -> string)
    requires kind != "bucket"
    ensures var name := MakeTempName(testMethod, kind, prefix, r, makeBucketNameValid);
      && 9 <= |name| <= MAX_BUCKET_LENGTH
      && name[..|name| - 9] == NameBody(prefix, testMethod, kind)
      && name[|name| - 9] == '-'
      && name[|name| - 8..] == MakeRandomTestString(r)
  {
    var body := NameBody(prefix, testMethod, kind);
    var name := body + "-" + MakeRandomTestString(r);
    assert name[..|name| - 9] == body;
    assert name[|name| - 8..] == MakeRandomTestString(r);
  }

  /** MakeTempName followed by the CJK character U+6750, so the name is not
      plain ASCII and exercises non-ASCII handling wherever it is used. */
  function MakeTempUnicodeName(testMethod: string, kind: string, prefix: string, r: Rand32,
                               makeBucketNameValid: string -> string): (name: string)
    ensures !Encoding.IsAscii(name)
    ensures name[..|name| - 1] == MakeTempName(testMethod, kind, prefix, r, makeBucketNameValid)
  {
    var name := MakeTempName(testMethod, kind, prefix, r, makeBucketNameValid) + "材";
    assert name[|name| - 1] == '材';
    name
  }

  /** A (non-bucket) unicode name is at most one character over the bucket
      limit, and the 8 hex digits before its last character still decode to
      the draw. */
  lemma UnicodeNameShape(testMethod: string, kind: string, prefix: string, r: Rand32,
                         makeBucketNameValid: string -> string)
    requires kind != "bucket"
    ensures var name := MakeTempUnicodeName(testMethod, kind, prefix, r, makeBucketNameValid);
      && 10 <= |name| <= MAX_BUCKET_LENGTH + 1
      && name[|name| - 1] == '材'
      && Numerals.AllDigits(name[|name| - 9..|name| - 1], 16)
      && Numerals.Parse(name[|name| - 9..|name| - 1], 16) == r
  {
    var plain := MakeTempName(testMethod, kind, prefix, r, makeBucketNameValid);
    var name := MakeTempUnicodeName(testMethod, kind, prefix, r, makeBucketNameValid);
    TempNameShape(testMethod, kind, prefix, r, makeBucketNameValid);
    assert name == plain + "材";
    assert name[|name| - 9..|name| - 1] == plain[|plain| - 8..];
  }

  /** The 8 hex digits at the end of a (non-bucket) name decode to the draw
      that produced it: truncation never reaches the random suffix. */
  lemma SuffixRecoversDraw(testMethod: string, kind: string, prefix: string, r: Rand32,
                           makeBucketNameValid: string -> string)
    requires kind != "bucket"
    ensures var name := MakeTempName(testMethod, kind, prefix, r, makeBucketNameValid);
      Numerals.AllDigits(name[|name| - 8..], 16) && Numerals.Parse(name[|name| - 8..], 16) == r
  {
    TempNameShape(testMethod, kind, prefix, r, makeBucketNameValid);
  }

  /** Two draws that differ give different names, whatever the prefix,
      test method and kind. */
  lemma DistinctDrawsDistinctNames(testMethod: string, kind: string, prefix: string, r1: Rand32, r2: Rand32,
                                   makeBucketNameValid: string -> string)
    requires kind != "bucket" && r1 != r2
    ensures MakeTempName(testMethod, kind, prefix, r1, makeBucketNameValid)
         != MakeTempName(testMethod, kind, prefix, r2, makeBucketNameValid)
  {
    SuffixRecoversDraw(testMethod, kind, prefix, r1, makeBucketNameValid);
    SuffixRecoversDraw(testMethod, kind, prefix, r2, makeBucketNameValid);
  }

  /** A full name that fits is kept whole. */
  lemma ShortNameUntruncated(testMethod: string, kind: string, prefix: string, r: Rand32,
                             makeBucketNameValid: string -> string)
    requires kind != "bucket" && |FullName(prefix, testMethod, kind)| <= BODY_LIMIT
    ensures MakeTempName(testMethod, kind, prefix, r, makeBucketNameValid)
         == FullName(prefix, testMethod, kind) + "-" + MakeRandomTestString(r)
  {
    var full := FullName(prefix, testMethod, kind);
    assert NameBody(prefix, testMethod, kind) == full;
  }
}
