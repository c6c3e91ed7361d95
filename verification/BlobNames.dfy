/** File names of the blob directory: blobs, their hash sidecars, and temporary files. */
module BlobNames {
  import opened Decimal
  import opened Text

  const MAX_NAME := 128
  const SIDECAR := ".sha256"
  const TEMP := ".tmp-"

  /** A valid name that joins with the blob directory to the directory itself. */
  const DOT := "."

  predicate IsNameChar(c: char) {
    'A' <= c <= 'Z' || 'a' <= c <= 'z' || IsDigit(c) || c in "._-"
  }

  predicate HasDots(s: string) {
    exists i :: 0 <= i < |s| - 1 && s[i] == '.' && s[i + 1] == '.'
  }

  predicate ValidName(name: string) {
    && 0 < |name| <= MAX_NAME
    && (forall i :: 0 <= i < |name| ==> IsNameChar(name[i]))
    && !HasDots(name)
  }

  /** The ASCII codes of digits, letters, and the three marks. */
  predicate NameCode(n: int) {
    48 <= n <= 57 || 65 <= n <= 90 || 97 <= n <= 122 || n == 45 || n == 46 || n == 95
  }

  /** A blob name is 1 to 128 letters, digits, dots, underscores and dashes, without two dots in a row. */
  lemma ValidNameIff(name: string)
    ensures ValidName(name) <==>
      && 1 <= |name| <= 128 && (forall i :: 0 <= i < |name| ==> NameCode(name[i] as int))
      && !exists i :: 0 <= i < |name| - 1 && name[i] == '.' == name[i + 1]
    ensures ValidName(name) ==> '/' !in name && '\\' !in name
  {
    assert forall c: char :: IsNameChar(c) <==> NameCode(c as int);
    assert !NameCode('/' as int) && !NameCode('\\' as int);
    hide IsNameChar, NameCode;
  }

  function HashName(name: string): string {
    name + SIDECAR
  }

  /** What a temporary file for a blob is called; the digits are chosen so that the name is free. */
  function TempName(name: string, digits: string): string {
    "." + name + TEMP + digits
  }

  predicate IsSidecar(file: string) {
    HasSuffix(file, SIDECAR)
  }

  ghost predicate TempShaped(file: string) {
    exists name, digits :: digits != "" && AllDigits(digits) && file == TempName(name, digits)
  }

  /** Names that files are renamed to. */
  ghost predicate Final(name: string) {
    !TempShaped(name) && name != DOT
  }

  /** The names the store's guarantees are about. */
  ghost predicate Plain(name: string) {
    !IsSidecar(name) && Final(name)
  }

  /** The blob a sidecar belongs to. */
  function Base(file: string): string {
    if |file| < 7 then "" else file[..|file| - 7]
  }

  lemma BaseOfHashName(name: string)
    ensures IsSidecar(HashName(name)) && Base(HashName(name)) == name
  {
  }

  lemma HashNameOfBase(file: string)
    requires IsSidecar(file)
    ensures HashName(Base(file)) == file
  {
  }

  /** A temporary file is never taken for a sidecar: it ends in digits. */
  lemma TempIsNoSidecar(name: string, digits: string)
    requires digits != "" && AllDigits(digits)
    ensures !IsSidecar(TempName(name, digits))
  {
    var f := TempName(name, digits);
    var n := |f|;
    assert n >= 7 && f[n - 1] == digits[|digits| - 1];
    if |digits| >= 4 {
      assert IsDigit(f[n - 4]) by { assert f[n - 4] == digits[|digits| - 4]; }
    } else {
      assert f[n - 1 - |digits|] == '-';
    }
  }

  /** A temporary name tells which blob it is for. */
  lemma TempNameInjective(a: string, x: string, b: string, y: string)
    requires AllDigits(x) && AllDigits(y)
    ensures TempName(a, x) == TempName(b, y) <==> a == b && x == y
  {
    var f, g := TempName(a, x), TempName(b, y);
    assert f[|f| - |x|..] == x && g[|g| - |y|..] == y;
    assert f[1..|f| - |x| - 5] == a && g[1..|g| - |y| - 5] == b;
    assert f[|f| - |x| - 1] == '-' && g[|g| - |y| - 1] == '-';
    if |x| < |y| {
      assert IsDigit(g[|g| - |x| - 1]) by { assert g[|g| - |x| - 1] == y[|y| - |x| - 1]; }
    } else if |y| < |x| {
      assert IsDigit(f[|f| - |y| - 1]) by { assert f[|f| - |y| - 1] == x[|x| - |y| - 1]; }
    }
  }

  lemma HashNameIsPlainOfNone(name: string)
    ensures !Plain(HashName(name)) && !TempShaped(HashName(name)) && IsSidecar(HashName(name))
  {
    BaseOfHashName(name);
    forall n, digits | digits != "" && AllDigits(digits)
      ensures HashName(name) != TempName(n, digits)
    {
      TempIsNoSidecar(n, digits);
    }
  }

  // ----- traps of the name space

  /**
   A sidecar's name is itself an acceptable blob name, exactly when it is short enough and the blob's name does not end
   in a dot.
   */
  lemma SidecarIsValidNameIff(name: string)
    requires ValidName(name)
    ensures ValidName(HashName(name)) <==> |name| + 7 <= MAX_NAME && name[|name| - 1] != '.'
  {
    var h := HashName(name);
    var n := |name|;
    assert h[..n] == name && h[n..] == SIDECAR;
    assert forall i :: n <= i < |h| ==> h[i] == SIDECAR[i - n];
    if name[n - 1] == '.' {
      assert h[n - 1] == '.' && h[n - 1 + 1] == '.';
    } else {
      forall i | 0 <= i < |h| - 1
        ensures !(h[i] == '.' && h[i + 1] == '.')
      {
        if i + 1 < n {
          assert h[i] == name[i] && h[i + 1] == name[i + 1];
        }
      }
    }
  }

  lemma TempNameParts(name: string, digits: string)
    ensures var f := TempName(name, digits); var n := |name|;
      && |f| == n + 6 + |digits| && f[0] == '.'
      && (forall i :: 1 <= i <= n ==> f[i] == name[i - 1])
      && (forall i :: n + 1 <= i < n + 6 ==> f[i] == TEMP[i - n - 1])
      && (forall i :: n + 6 <= i < |f| ==> f[i] == digits[i - n - 6])
  {
  }

  lemma TempNameChars(name: string, digits: string)
    requires ValidName(name) && AllDigits(digits)
    ensures forall i :: 0 <= i < |TempName(name, digits)| ==> IsNameChar(TempName(name, digits)[i])
  {
    TempNameParts(name, digits);
    hide TempName, HasDots;
    assert forall k :: 0 <= k < |TEMP| ==> IsNameChar(TEMP[k]);
  }

  lemma TempNameDots(name: string, digits: string)
    requires ValidName(name) && AllDigits(digits)
    ensures HasDots(TempName(name, digits)) <==> name[0] == '.' || name[|name| - 1] == '.'
  {
    TempNameParts(name, digits);
    hide TempName, IsNameChar;
    var f, n := TempName(name, digits), |name|;
    if name[0] == '.' {
      assert f[0] == '.' && f[0 + 1] == '.';
    } else if name[n - 1] == '.' {
      assert f[n] == '.' && f[n + 1] == '.';
    } else {
      forall i | 0 <= i < |f| - 1
        ensures !(f[i] == '.' && f[i + 1] == '.')
      {
        if 1 <= i < n {
          assert f[i] == name[i - 1] && f[i + 1] == name[i - 1 + 1];
        }
      }
    }
  }

  /** A temporary file can pass for a blob in a listing: exactly when it is short and the dots do not meet. */
  lemma TempIsValidNameIff(name: string, digits: string)
    requires ValidName(name) && digits != "" && AllDigits(digits)
    ensures ValidName(TempName(name, digits)) <==>
              |name| + |digits| + 6 <= MAX_NAME && name[0] != '.' && name[|name| - 1] != '.'
  {
    TempNameChars(name, digits);
    TempNameDots(name, digits);
    hide HasDots, IsNameChar;
  }
}
