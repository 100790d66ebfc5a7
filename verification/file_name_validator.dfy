/**
 * The upload file-name check: a pure predicate over the declared file name of
 * a multipart part, returning `Ok(())` or the message shown to the client.
 */
module FileNameValidator {
  import opened Base
  import Utf8

  /** Byte-length limit of a file name. */
  const MaxNameBytes: nat := 255

  /** Prefix of every rejection message. */
  const InvalidNamePrefix: string := "Invalid file name: "

  /** Rust's `char::is_whitespace`: the Unicode White_Space property. */
  predicate IsWhitespace(c: char)
  {
    var n := c as int;
    (0x09 <= n <= 0x0D) || n == 0x20 || n == 0x85 || n == 0xA0 || n == 0x1680
    || (0x2000 <= n <= 0x200A) || n == 0x2028 || n == 0x2029 || n == 0x202F
    || n == 0x205F || n == 0x3000
  }

  /** Rust's `char::is_control`: general category Cc. */
  predicate IsControl(c: char)
  {
    var n := c as int;
    n <= 0x1F || (0x7F <= n <= 0x9F)
  }

  /** `str::trim_start`: drops the leading whitespace and nothing else. */
  function TrimStart(s: string): (r: string)
    ensures |r| <= |s| && r == s[|s| - |r|..]
    ensures forall i :: 0 <= i < |s| - |r| ==> IsWhitespace(s[i])
    ensures |r| > 0 ==> !IsWhitespace(r[0])
  {
    if |s| > 0 && IsWhitespace(s[0]) then TrimStart(s[1..]) else s
  }

  /** `str::trim_end`: drops the trailing whitespace and nothing else. */
  function TrimEnd(s: string): (r: string)
    ensures |r| <= |s| && r == s[..|r|]
    ensures forall i :: |r| <= i < |s| ==> IsWhitespace(s[i])
    ensures |r| > 0 ==> !IsWhitespace(r[|r| - 1])
  {
    if |s| > 0 && IsWhitespace(s[|s| - 1]) then TrimEnd(s[..|s| - 1]) else s
  }

  /** `str::trim`. */
  function Trim(s: string): string
  {
    TrimEnd(TrimStart(s))
  }

  /** The validator's four rejection conditions, as `validate_file_name` computes them. */
  predicate IsEmptyOrWhitespace(s: string) { |Trim(s)| == 0 }

  predicate IsTooLong(s: string) { Utf8.Len(s) > MaxNameBytes }

  predicate ContainsControl(s: string)
  {
    exists i :: 0 <= i < |s| && IsControl(s[i])
  }

  /** Membership in the deny-list `..`, `/`, NUL, by whole-string equality. */
  predicate IsDenied(s: string) { s == ".." || s == "/" || s == "\0" }

  /** A name with at least one code point that is not whitespace. */
  predicate HasNonWhitespace(s: string)
  {
    exists i :: 0 <= i < |s| && !IsWhitespace(s[i])
  }

  /** Trimming leaves nothing exactly when every code point is whitespace. */
  lemma TrimEmptyIff(s: string)
    ensures IsEmptyOrWhitespace(s) <==> !HasNonWhitespace(s)
  {
    var t := TrimStart(s);
    if |t| > 0 {
      assert !IsWhitespace(t[0]) && t[0] == s[|s| - |t|];
      assert |TrimEnd(t)| > 0;
    }
  }

  /**
   * `validate_file_name`: accepts exactly the names that contain a
   * non-whitespace code point, fit in 255 UTF-8 bytes, hold no control
   * character and are not one of the three denied names.
   */
  function ValidateFileName(s: string): (r: Result<Unit, string>)
    ensures r.Ok? <==>
      HasNonWhitespace(s) && Utf8.Len(s) <= MaxNameBytes
      && (forall i :: 0 <= i < |s| ==> !IsControl(s[i]))
      && !IsDenied(s)
    ensures r.Err? ==> r.error == InvalidNamePrefix + s
  {
    TrimEmptyIff(s);
    if IsEmptyOrWhitespace(s) || IsTooLong(s) || ContainsControl(s) || IsDenied(s)
    then Err(InvalidNamePrefix + s)
    else Ok(Unit)
  }

  /** Any name longer than 255 code points is rejected, since each takes at least one byte. */
  lemma RejectsOver255CodePoints(s: string)
    requires |s| > 255
    ensures ValidateFileName(s).Err?
  {
    Utf8.LenBounds(s);
  }

  /** No name of at most 63 code points is too long, since each takes at most four bytes. */
  lemma ShortNamesFitByteLimit(s: string)
    requires |s| <= 63
    ensures !IsTooLong(s)
  {
    Utf8.LenBounds(s);
  }

  /** The limit is inclusive and counts bytes: 255 ASCII letters pass, 128 'é' do not. */
  lemma ByteLimitBoundary()
    ensures ValidateFileName(seq(255, _ => 'a')).Ok?
    ensures ValidateFileName(seq(128, _ => 'é')).Err?
  {
    var a := seq(255, _ => 'a');
    Utf8.LenRepeat('a', 255);
    assert !IsWhitespace(a[0]);
    assert a != ".." by { assert |a| != 2; }
    var e := seq(128, _ => 'é');
    Utf8.LenRepeat('é', 128);
  }

  /** A name containing NUL is rejected. */
  lemma RejectsNul(s: string, i: nat)
    requires i < |s| && s[i] == '\0'
    ensures ValidateFileName(s) == Err("Invalid file name: " + s)
  {
    assert IsControl(s[i]);
  }

  /** A visible-ASCII name of 1 to 255 characters passes unless it is denied. */
  lemma AcceptsVisibleAscii(s: string)
    requires 0 < |s| <= 255
    requires forall i :: 0 <= i < |s| ==> 0x21 <= (s[i] as int) <= 0x7E
    ensures ValidateFileName(s).Ok? <==> !IsDenied(s)
  {
    Utf8.LenAscii(s);
    assert !IsWhitespace(s[0]);
  }

  /** The two visible deny-list names are refused. */
  lemma DeniedNamesRejected()
    ensures ValidateFileName("..").Err?
    ensures ValidateFileName("/").Err?
  {
    AcceptsVisibleAscii("..");
    AcceptsVisibleAscii("/");
  }

  /** The deny-list is matched by whole-string equality: a name merely containing `/` passes. */
  lemma SlashInsideNameAccepted()
    ensures ValidateFileName("a/b").Ok?
  {
    assert "a/b"[0] == 'a';
    AcceptsVisibleAscii("a/b");
  }

  /** Likewise a name starting with `../` passes. */
  lemma ParentPrefixAccepted()
    ensures ValidateFileName("../x").Ok?
  {
    assert |"../x"| == 4;
    AcceptsVisibleAscii("../x");
  }

  /** And so does the name `.`. */
  lemma SingleDotAccepted()
    ensures ValidateFileName(".").Ok?
  {
    assert "."[0] == '.';
    AcceptsVisibleAscii(".");
  }
}
