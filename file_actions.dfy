/** The file-system effects the test helpers issue, as log entries, and the
    decisions CreateTempFile takes about timestamps, ownership and mode.
    NA_ID and NA_MODE are the "not applicable" sentinels of gsutil's POSIX
    helpers; they let a caller pass a real 0 while still meaning "leave it". */
module FileActions {
  import Encoding
  import Numerals

  datatype Option<T> = None | Some(value: T)

  /** What a write puts in a file: bytes as given, or text, which is
      written as its UTF-8 encoding. */
  datatype Payload = Raw(bytes: seq<Encoding.byte>) | Utf8Text(text: string)

  /** The bytes that end up in the file. */
  function PayloadBytes(p: Payload): seq<Encoding.byte> {
    match p
    case Raw(b) => b
    case Utf8Text(t) => Encoding.Utf8(t)
  }

  datatype FsAction =
    | MakeTempDir(path: string)
    | WriteFile(path: string, data: Payload)
    | SetTimes(path: string, atime: int, mtime: int)
    | Chown(path: string, uid: int, gid: int)
    | Chmod(path: string, mode: nat)
    | RemoveTree(path: string)

  const NA_ID: int := -1
  const NA_MODE: int := -1

  /** The mode argument: the integer default NA_MODE, or a string that the
      caller has validated as three octal digits. */
  datatype ModeArg = IntMode(value: int) | StrMode(digits: string)

  /** What the caller must have checked before passing a mode. */
  predicate ValidMode(m: ModeArg) {
    match m
    case IntMode(v) => v == NA_MODE
    case StrMode(s) => |s| == 3 && Numerals.AllDigits(s, 8)
  }

  /** Python's int(mode): the integer itself, or the string read in base 10. */
  function IntOf(m: ModeArg): int
    requires ValidMode(m)
  {
    match m
    case IntMode(v) => v
    case StrMode(s) => Numerals.Parse(s, 10)
  }

  /** The actions after the write, in the order CreateTempFile issues them:
      utime with atime == mtime, then chown, then chmod with int(mode, 8). */
  function AttributeActions(path: string, mtime: Option<int>, mode: ModeArg, uid: int, gid: int): seq<FsAction>
    requires ValidMode(mode)
  {
    (if mtime.Some? then [SetTimes(path, mtime.value, mtime.value)] else [])
    + (if uid != NA_ID || gid != NA_ID then [Chown(path, uid, gid)] else [])
    + (if IntOf(mode) != NA_MODE then [Chmod(path, Numerals.Parse(mode.digits, 8))] else [])
  }

  /** Ownership is changed exactly when uid or gid differs from NA_ID, with
      both ids passed through; a sentinel left in one of them tells chown to
      keep that id. */
  lemma ChownDecision(path: string, mtime: Option<int>, mode: ModeArg, uid: int, gid: int)
    requires ValidMode(mode)
    ensures var acts := AttributeActions(path, mtime, mode, uid, gid);
      && ((exists k :: 0 <= k < |acts| && acts[k].Chown?) <==> (uid != NA_ID || gid != NA_ID))
      && (forall k :: 0 <= k < |acts| && acts[k].Chown? ==> acts[k] == Chown(path, uid, gid))
  {
    var acts := AttributeActions(path, mtime, mode, uid, gid);
    if uid != NA_ID || gid != NA_ID {
      var k := if mtime.Some? then 1 else 0;
      assert acts[k].Chown?;
    }
  }

  /** The mode is changed exactly when a mode string was given, never for
      the NA_MODE default, and the value applied is the string read in base
      8: a permission value below 0o1000 whose three octal digits are the
      given ones. */
  lemma ChmodDecision(path: string, mtime: Option<int>, mode: ModeArg, uid: int, gid: int)
    requires ValidMode(mode)
    ensures var acts := AttributeActions(path, mtime, mode, uid, gid);
      && ((exists k :: 0 <= k < |acts| && acts[k].Chmod?) <==> mode.StrMode?)
      && (forall k :: 0 <= k < |acts| && acts[k].Chmod? ==>
            && acts[k].path == path
            && acts[k].mode == Numerals.Parse(mode.digits, 8)
            && acts[k].mode < 512
            && Numerals.FormatPadded(acts[k].mode, 8, 3) == mode.digits)
  {
    var acts := AttributeActions(path, mtime, mode, uid, gid);
    if mode.StrMode? {
      assert Numerals.AllDigits(mode.digits, 10) by {
        forall i | 0 <= i < |mode.digits| ensures Numerals.IsDigit(mode.digits[i], 10) {
          assert Numerals.IsDigit(mode.digits[i], 8);
        }
      }
      assert IntOf(mode) >= 0;
      assert acts[|acts| - 1] == Chmod(path, Numerals.Parse(mode.digits, 8));
      Numerals.FormatPaddedParse(mode.digits, 8);
    }
  }

  /** Timestamps are set exactly when mtime is given, and access and
      modification time are both set to it. */
  lemma TimesDecision(path: string, mtime: Option<int>, mode: ModeArg, uid: int, gid: int)
    requires ValidMode(mode)
    ensures var acts := AttributeActions(path, mtime, mode, uid, gid);
      && ((exists k :: 0 <= k < |acts| && acts[k].SetTimes?) <==> mtime.Some?)
      && (forall k :: 0 <= k < |acts| && acts[k].SetTimes? ==>
            acts[k] == SetTimes(path, mtime.value, mtime.value))
  {
    var acts := AttributeActions(path, mtime, mode, uid, gid);
    if mtime.Some? {
      assert acts[0].SetTimes?;
    }
  }

  /** With every argument at its default nothing but the write happens. */
  lemma DefaultsChangeNothing(path: string)
    ensures AttributeActions(path, None, IntMode(NA_MODE), NA_ID, NA_ID) == []
  {
  }
}
