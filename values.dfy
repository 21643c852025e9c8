/** Values shared by every part of the model: optional values, JavaScript
    truthiness of image fields, the few string operations the code uses
    (prefix, substring, ASCII case mapping) and the errors the core raises. */
module Values {

  datatype Option<+T> = None | Some(value: T)

  datatype Result<+R, +E> = Success(value: R) | Failure(error: E)

  /** An image field of the session: `null`/`undefined` (None) or a string. */
  type Field = Option<string>

  /** JavaScript truthiness of a field: present and not the empty string. */
  predicate Truthy(f: Field) {
    f.Some? && f.value != ""
  }

  /** `s.startsWith(p)` */
  predicate StartsWith(s: string, p: string) {
    |p| <= |s| && s[..|p|] == p
  }

  /** `s.includes(p)` */
  predicate Contains(s: string, p: string)
    decreases |s|
  {
    StartsWith(s, p) || (s != [] && Contains(s[1..], p))
  }

  lemma {:induction false} ContainsAt(s: string, p: string, i: nat)
    requires i + |p| <= |s| && s[i..i + |p|] == p
    ensures Contains(s, p)
  {
    if i > 0 {
      assert s[1..][i - 1..i - 1 + |p|] == s[i..i + |p|];
      ContainsAt(s[1..], p, i - 1);
    } else {
      assert s[..|p|] == s[0..|p|];
    }
  }

  lemma {:induction false} ContainsWitness(s: string, p: string) returns (i: nat)
    requires Contains(s, p)
    ensures i + |p| <= |s| && s[i..i + |p|] == p
    decreases |s|
  {
    if StartsWith(s, p) {
      i := 0;
    } else {
      var j := ContainsWitness(s[1..], p);
      assert s[1..][j..j + |p|] == s[j + 1..j + 1 + |p|];
      i := j + 1;
    }
  }

  /** A substring stays a substring inside a longer text. */
  lemma ContainsInfix(x: string, a: string, y: string, p: string)
    requires Contains(a, p)
    ensures Contains(x + a + y, p)
  {
    var i := ContainsWitness(a, p);
    var s := x + a + y;
    assert s[|x| + i..|x| + i + |p|] == a[i..i + |p|];
    ContainsAt(s, p, |x| + i);
  }

  /** Upper-casing of one character, ASCII letters only. */
  function UpperChar(c: char): char {
    if 'a' <= c <= 'z' then (c as int - 32) as char else c
  }

  /** Lower-casing of one character, ASCII letters only. */
  function LowerChar(c: char): char {
    if 'A' <= c <= 'Z' then (c as int + 32) as char else c
  }

  /** `s.toUpperCase()`, restricted to ASCII letters. */
  function Upper(s: string): (r: string)
    ensures |r| == |s|
    ensures forall k :: 0 <= k < |s| ==> r[k] == UpperChar(s[k])
  {
    seq(|s|, k requires 0 <= k < |s| => UpperChar(s[k]))
  }

  /** Upper-casing distributes over concatenation. */
  lemma UpperAppend(a: string, b: string)
    ensures Upper(a + b) == Upper(a) + Upper(b)
  {
    assert forall k :: 0 <= k < |a + b| ==> Upper(a + b)[k] == (Upper(a) + Upper(b))[k];
  }

  /** Lower-casing over ASCII letters, as a case-insensitive regular
      expression compares characters. */
  function Lower(s: string): (r: string)
    ensures |r| == |s|
    ensures forall k :: 0 <= k < |s| ==> r[k] == LowerChar(s[k])
  {
    seq(|s|, k requires 0 <= k < |s| => LowerChar(s[k]))
  }

  /** The kind of an image reference, told by its prefix. */
  datatype ImageKind =
    | Inline   // `data:` URL: self-contained, safe to persist
    | Handle   // `blob:` URL: process-local, dangling after a reload
    | Remote   // `http://` or `https://` URL
    | Unknown  // anything else (such as bare base64 text)

  function KindOf(s: string): (k: ImageKind)
    ensures k == Handle <==> StartsWith(s, "blob:")
    ensures k == Inline <==> StartsWith(s, "data:")
  {
    if StartsWith(s, "data:") then Inline
    else if StartsWith(s, "blob:") then Handle
    else if StartsWith(s, "http://") || StartsWith(s, "https://") then Remote
    else Unknown
  }

  /** An error thrown by the runtime (`fetch`, `response.json()`, ...):
      its `name` and `message`. */
  datatype JsError = JsError(name: string, message: string)

  /** What a failing operation of the core reports. */
  datatype Failure =
    | ApiKeyMissing                          // 'GEMINI_API_KEY not set'
    | NoBaseImage                            // try-on without a base photo
    | NoGarmentsToWear                       // try-on with no effective garment
    | ImageConversionFailed                  // an input image could not be read
    | ApiStatus(status: int)                 // `API error: <status>`
    | NoImageInResponse                      // answer without image or URL
    | AllModelsFailed                        // every candidate was skipped
    | Raised(error: JsError)                 // an error thrown by the runtime
    | BadCategory(category: string)          // replaceSlot: unknown category
    | BadIndex(category: string, index: int) // replaceSlot: index out of range
    | NotACategory(category: string)         // removeGarment: TypeError
    | UploadRejected                         // the photo could not be opened
}
