/** The contact form: field validators, truncation for the notification,
    labels and extensions, the banned-word check, the image limits of the
    multipart upload and the order of the submission checks. */
module Contact {
  import opened Common
  import opened AppErrors
  import Text

  // ---- validators ----

  /** `validate_required`: the trimmed text must be `min..=max` bytes. */
  function ValidateRequired(text: string, min: int, max: int, fieldName: string): (r: Outcome<string>)
    ensures r.Ok? <==> min <= Text.Utf8Len(Text.Trim(text)) <= max
    ensures r.Ok? ==> r.value == Text.Trim(text)
    ensures r.Err? ==> r.error.BadRequest?
  {
    var trimmed := Text.Trim(text);
    if Text.Utf8Len(trimmed) < min || Text.Utf8Len(trimmed) > max then
      Err(BadRequest(fieldName + "は" + Text.IntToString(min) + "文字以上" + Text.IntToString(max) + "文字以下で入力してください"))
    else Ok(trimmed)
  }

  /** `validate_optional`: missing or blank is no value, longer than `max`
      bytes after trimming is an error, anything else is kept trimmed. */
  function ValidateOptional(text: Option<string>, max: int): (r: Outcome<Option<string>>)
    ensures text.None? || Text.IsAllWhitespace(text.value) ==> r == Ok(None)
    ensures text.Some? && !Text.IsAllWhitespace(text.value) ==>
      (r.Ok? <==> Text.Utf8Len(Text.Trim(text.value)) <= max)
      && (r.Ok? ==> r.value == Some(Text.Trim(text.value)))
  {
    match text
    case None => Ok(None)
    case Some(value) =>
      var trimmed := Text.Trim(value);
      if trimmed == [] then Ok(None)
      else if Text.Utf8Len(trimmed) > max then
        Err(BadRequest("入力は" + Text.IntToString(max) + "文字以下で入力してください"))
      else Ok(Some(trimmed))
  }

  /** A value the validators accepted is accepted unchanged a second time. */
  lemma RequiredIsStable(text: string, min: int, max: int, fieldName: string)
    ensures var r := ValidateRequired(text, min, max, fieldName);
      r.Ok? ==> ValidateRequired(r.value, min, max, fieldName) == r
  {
    Text.TrimIdempotent(text);
  }

  lemma OptionalIsStable(text: Option<string>, max: int)
    ensures var r := ValidateOptional(text, max);
      r.Ok? && r.value.Some? ==> ValidateOptional(r.value, max) == r
  {
    if text.Some? {
      Text.TrimIdempotent(text.value);
    }
  }

  /** `validate_email`: 5..200 bytes after trimming, split by '@' into
      exactly two parts, and a domain part that is non-empty and holds a '.'. */
  function ValidateEmail(text: string): (ok: bool) {
    var trimmed := Text.Trim(text);
    if Text.Utf8Len(trimmed) < 5 || Text.Utf8Len(trimmed) > 200 then false
    else
      var parts := Text.Split(trimmed, '@');
      if |parts| != 2 then false
      else parts[1] != [] && '.' in parts[1]
  }

  /** The email rule restated on the text: one '@' and no second one after
      it, followed by a non-empty domain containing '.'; the local part may
      be empty. */
  lemma ValidateEmailMeaning(text: string)
    ensures var t := Text.Trim(text);
      ValidateEmail(text) <==>
        5 <= Text.Utf8Len(t) <= 200 && '@' in t
        && var domain := t[Text.IndexOf(t, '@') + 1..];
           '@' !in domain && domain != [] && '.' in domain
  {
    var t := Text.Trim(text);
    if '@' in t {
      var i := Text.IndexOf(t, '@');
      var rest := t[i + 1..];
      assert Text.Split(t, '@') == [t[..i]] + Text.Split(rest, '@');
      if '@' in rest {
        var j := Text.IndexOf(rest, '@');
        assert |Text.Split(rest, '@')| >= 2 by {
          assert Text.Split(rest, '@') == [rest[..j]] + Text.Split(rest[j + 1..], '@');
        }
      }
    }
  }

  /** An empty text is not an email. */
  lemma EmptyEmailInvalid()
    ensures !ValidateEmail("")
  {
    assert Text.Trim("") == "";
  }

  /** "@" followed by a domain that does not end in white space is
      already trimmed, and takes one byte more than the domain. */
  lemma AtDomainShape(domain: string)
    requires domain != [] && !Text.IsWhitespace(domain[|domain| - 1])
    ensures Text.Trim("@" + domain) == "@" + domain
    ensures Text.Utf8Len("@" + domain) == Text.Utf8Len(domain) + 1
  {
    var e := "@" + domain;
    assert e[0] == '@' && e[|e| - 1] == domain[|domain| - 1];
    Text.TrimStartOfTrimmed(e);
    Text.TrimEndOfTrimmed(e);
    Text.Utf8LenAppend("@", domain);
  }

  /** An empty local part passes: '@' followed by any domain of 4 to 199
      bytes that holds a '.', no '@' and no trailing white space (such as
      "@b.co") is accepted. */
  lemma EmptyLocalPartAccepted(domain: string)
    requires 4 <= Text.Utf8Len(domain) <= 199
    requires '.' in domain && '@' !in domain && !Text.IsWhitespace(domain[|domain| - 1])
    ensures ValidateEmail("@" + domain)
  {
    var e := "@" + domain;
    assert Text.Trim(e) == e && 5 <= Text.Utf8Len(e) <= 200 by {
      AtDomainShape(domain);
    }
    assert Text.Split(e, '@') == [[], domain] by {
      SplitAtHead(domain);
    }
    AcceptedByParts(e, [], domain);
  }

  /** An already trimmed text of 5 to 200 bytes that splits on '@' into two
      pieces, the second a non-empty text holding '.', is accepted. */
  lemma AcceptedByParts(e: string, local: string, domain: string)
    requires Text.Trim(e) == e && 5 <= Text.Utf8Len(e) <= 200
    requires Text.Split(e, '@') == [local, domain] && domain != [] && '.' in domain
    ensures ValidateEmail(e)
  {}

  /** Splitting "@" + domain on '@' gives an empty local part and the
      domain, when the domain holds no '@'. */
  lemma SplitAtHead(domain: string)
    requires '@' !in domain
    ensures Text.Split("@" + domain, '@') == [[], domain]
  {
    var e := "@" + domain;
    assert e[0] == '@' && e[..0] == [] && e[1..] == domain;
    assert Text.IndexOf(e, '@') == 0;
    assert Text.Split(domain, '@') == [domain];
  }

  /** Any second '@' is refused, wherever the two stand. */
  lemma SecondAtRejected(text: string, i: nat, j: nat)
    requires var t := Text.Trim(text); i < j < |t| && t[i] == '@' && t[j] == '@'
    ensures !ValidateEmail(text)
  {
    var t := Text.Trim(text);
    var k := Text.IndexOf(t, '@');
    assert t[j] in t[k + 1..] by {
      assert t[k + 1..][j - k - 1] == t[j];
    }
    ValidateEmailMeaning(text);
  }

  // ---- text for the notification ----

  /** `truncate`: at most `max` characters, the last one '…' when cut. */
  function Truncate(value: string, max: nat): (r: string)
    ensures |value| <= max ==> r == value
    ensures |value| > max ==>
      |r| == Max(max, 1) && r[|r| - 1] == '…' && r[..|r| - 1] == value[..|r| - 1]
  {
    if |value| <= max then value
    else value[..if max >= 1 then max - 1 else 0] + "…"
  }

  /** With `max >= 1` the result fits, and truncating again changes nothing. */
  lemma TruncateFits(value: string, max: nat)
    requires max >= 1
    ensures |Truncate(value, max)| <= max
    ensures Truncate(Truncate(value, max), max) == Truncate(value, max)
  {}

  /** `kind_label`. */
  function KindLabel(kind: string): (display: Option<string>)
    ensures display.Some? <==> kind == "bug" || kind == "request" || kind == "other"
  {
    match kind
    case "bug" => Some("バグ")
    case "request" => Some("要望")
    case "other" => Some("その他")
    case _ => None
  }

  const AllowedMimes: seq<string> := ["image/jpeg", "image/png", "image/gif", "image/webp"]

  /** `get_extension_from_mime`. */
  function ExtensionOf(mime: string): (ext: string) {
    match mime
    case "image/jpeg" => "jpg"
    case "image/png" => "png"
    case "image/gif" => "gif"
    case "image/webp" => "webp"
    case _ => "bin"
  }

  /** Exactly the allowed image types have a real extension. */
  lemma ExtensionOfAllowed(mime: string)
    ensures ExtensionOf(mime) != "bin" <==> mime in AllowedMimes
  {}

  // ---- banned words ----

  /** The text compared: lowered unless the list is case-sensitive. */
  function Folded(s: string, caseSensitive: bool): string {
    if caseSensitive then s else Text.Lower(s)
  }

  /** What `contains_banned_word` decides. */
  predicate HasBannedWord(text: string, words: seq<string>, caseSensitive: bool) {
    exists k :: 0 <= k < |words| && Text.Contains(Folded(text, caseSensitive), Folded(words[k], caseSensitive))
  }

  /** `contains_banned_word`: the loop over the words with early return. */
  method ContainsBannedWord(text: string, words: seq<string>, caseSensitive: bool) returns (found: bool)
    ensures found <==> HasBannedWord(text, words, caseSensitive)
    ensures words == [] ==> !found
  {
    if words == [] {
      return false;
    }
    var checkText := if caseSensitive then text else Text.Lower(text);
    var i := 0;
    while i < |words|
      invariant 0 <= i <= |words|
      invariant forall k :: 0 <= k < i ==> !Text.Contains(Folded(text, caseSensitive), Folded(words[k], caseSensitive))
    {
      var checkWord := if caseSensitive then words[i] else Text.Lower(words[i]);
      if Text.Contains(checkText, checkWord) {
        return true;
      }
      i := i + 1;
    }
    return false;
  }

  /** A word that occurs in the text verbatim is always caught, whatever
      the case setting. */
  lemma VerbatimWordCaught(text: string, words: seq<string>, caseSensitive: bool, k: nat, at: nat)
    requires k < |words| && at + |words[k]| <= |text| && text[at..at + |words[k]|] == words[k]
    ensures HasBannedWord(text, words, caseSensitive)
  {
    var t := Folded(text, caseSensitive);
    var w := Folded(words[k], caseSensitive);
    assert t[at..at + |w|] == w;
    Text.ContainsAt(t, w, at);
  }

  // ---- images ----

  const MaxImageSize: nat := 2 * 1024 * 1024
  const MaxImageCount: nat := 4

  /** A part of the multipart body. */
  datatype Part = DataPart(json: string) | ImagePart(contentType: string, filename: Option<string>, size: nat) | OtherPart

  datatype Image = Image(filename: string, contentType: string, size: nat)

  /** The image stored for the `n`-th image part (`n` counted from 0). */
  function ImageOf(contentType: string, filename: Option<string>, size: nat, n: nat): Image {
    Image(if filename.Some? then filename.value else "image_" + Text.IntToString(n + 1) + "." + ExtensionOf(contentType),
          contentType, size)
  }

  /** The multipart loop: its JSON text (the last data part) and images, or
      the first error, as the parts arrive. */
  function Collect(parts: seq<Part>): (r: Outcome<(Option<string>, seq<Image>)>)
    ensures r.Ok? ==>
      |r.value.1| <= MaxImageCount
      && forall i :: 0 <= i < |r.value.1| ==> r.value.1[i].contentType in AllowedMimes && r.value.1[i].size <= MaxImageSize
  {
    if parts == [] then Ok((None, []))
    else
      var prev := Collect(parts[..|parts| - 1]);
      if prev.Err? then prev
      else
        var (json, images) := prev.value;
        match parts[|parts| - 1]
        case DataPart(text) => Ok((Some(text), images))
        case OtherPart => prev
        case ImagePart(contentType, filename, size) =>
          if |images| >= MaxImageCount then Err(BadRequest("画像は最大4枚までです"))
          else if contentType !in AllowedMimes then Err(BadRequest("画像はJPEG、PNG、GIF、WebP形式のみ対応しています"))
          else if size > MaxImageSize then Err(BadRequest("画像サイズは2MB以下にしてください"))
          else Ok((json, images + [ImageOf(contentType, filename, size, |images|)]))
  }

  /** Once an error occurs, later parts do not matter. */
  lemma {:induction false} CollectErrorSticks(parts: seq<Part>, j: nat)
    requires j <= |parts| && Collect(parts[..j]).Err?
    ensures Collect(parts) == Collect(parts[..j])
    decreases |parts| - j
  {
    if j < |parts| {
      assert parts[..j + 1][..j] == parts[..j];
      assert Collect(parts[..j + 1]) == Collect(parts[..j]);
      CollectErrorSticks(parts, j + 1);
      assert parts[..j + 1][..j] == parts[..j];
    } else {
      assert parts[..j] == parts;
    }
  }

  /** The part loop of `submit_contact`. */
  method CollectParts(parts: seq<Part>) returns (r: Outcome<(Option<string>, seq<Image>)>)
    ensures r == Collect(parts)
  {
    var json: Option<string> := None;
    var images: seq<Image> := [];
    var i := 0;
    while i < |parts|
      invariant 0 <= i <= |parts|
      invariant Collect(parts[..i]) == Ok((json, images))
    {
      assert parts[..i + 1][..i] == parts[..i];
      match parts[i] {
        case DataPart(text) =>
          json := Some(text);
        case OtherPart =>
        case ImagePart(contentType, filename, size) =>
          if |images| >= MaxImageCount || contentType !in AllowedMimes || size > MaxImageSize {
            r := if |images| >= MaxImageCount then Err(BadRequest("画像は最大4枚までです"))
              else if contentType !in AllowedMimes then Err(BadRequest("画像はJPEG、PNG、GIF、WebP形式のみ対応しています"))
              else Err(BadRequest("画像サイズは2MB以下にしてください"));
            assert r == Collect(parts[..i + 1]);
            CollectErrorSticks(parts, i + 1);
            return;
          }
          images := images + [ImageOf(contentType, filename, size, |images|)];
      }
      i := i + 1;
    }
    assert parts[..i] == parts;
    r := Ok((json, images));
  }

  /** With four images collected, any further image part is refused. */
  lemma FifthImageRefused(parts: seq<Part>, image: Part)
    requires Collect(parts).Ok? && |Collect(parts).value.1| == MaxImageCount && image.ImagePart?
    ensures Collect(parts + [image]) == Err(BadRequest("画像は最大4枚までです"))
  {
    assert (parts + [image])[..|parts|] == parts;
  }

  // ---- the submission ----

  datatype Submission = Submission(kind: string, summary: string, detail: string,
                                   reproduction: Option<string>, contactOk: bool, email: Option<string>)

  datatype Fields = Fields(kindLabel: string, summary: string, detail: string, reproduction: Option<string>,
                           email: Option<string>)

  datatype Verdict = Rejected(error: AppError) | Banned(field: string) | Accepted(fields: Fields)

  const EmailRequired: string := "返信用メールアドレスを正しい形式で入力してください"

  /** The field checks of `submit_contact`, in order: kind, summary (3..120
      bytes), detail (5..3000), reproduction (up to 3000), email (up to 200). */
  function ParseFields(s: Submission): (r: Outcome<Fields>)
    ensures r.Ok? ==>
      3 <= Text.Utf8Len(r.value.summary) <= 120 && 5 <= Text.Utf8Len(r.value.detail) <= 3000
      && r.value.summary == Text.Trim(s.summary) && r.value.detail == Text.Trim(s.detail)
      && (r.value.email.Some? ==> Text.Utf8Len(r.value.email.value) <= 200)
  {
    var kind := KindLabel(Text.Trim(s.kind));
    if kind.None? then Err(BadRequest("種別はバグ/要望/その他から選択してください"))
    else
      var summary := ValidateRequired(s.summary, 3, 120, "概要");
      if summary.Err? then Err(summary.error)
      else
        var detail := ValidateRequired(s.detail, 5, 3000, "詳細");
        if detail.Err? then Err(detail.error)
        else
          var repro := ValidateOptional(s.reproduction, 3000);
          if repro.Err? then Err(repro.error)
          else
            var email := ValidateOptional(s.email, 200);
            if email.Err? then Err(email.error)
            else Ok(Fields(kind.value, summary.value, detail.value, repro.value, email.value))
  }

  /** The fields parse exactly when all five checks pass, and otherwise
      the error is that of the first failing check, in the order kind,
      summary, detail, reproduction, email. */
  lemma ParseFieldsOrder(s: Submission)
    ensures var kind := KindLabel(Text.Trim(s.kind));
      var summary := ValidateRequired(s.summary, 3, 120, "概要");
      var detail := ValidateRequired(s.detail, 5, 3000, "詳細");
      var repro := ValidateOptional(s.reproduction, 3000);
      var email := ValidateOptional(s.email, 200);
      && (ParseFields(s).Ok? <==> kind.Some? && summary.Ok? && detail.Ok? && repro.Ok? && email.Ok?)
      && (ParseFields(s).Ok? ==>
            ParseFields(s).value == Fields(kind.value, summary.value, detail.value, repro.value, email.value))
      && (kind.None? ==> ParseFields(s) == Err(BadRequest("種別はバグ/要望/その他から選択してください")))
      && (kind.Some? && summary.Err? ==> ParseFields(s) == Err(summary.error))
      && (kind.Some? && summary.Ok? && detail.Err? ==> ParseFields(s) == Err(detail.error))
      && (kind.Some? && summary.Ok? && detail.Ok? && repro.Err? ==> ParseFields(s) == Err(repro.error))
      && (kind.Some? && summary.Ok? && detail.Ok? && repro.Ok? && email.Err? ==> ParseFields(s) == Err(email.error))
  {}

  /** The checks after the fields: banned words in summary, detail and
      reproduction, then a valid email when contact is allowed. */
  function Screen(f: Fields, contactOk: bool, words: seq<string>, caseSensitive: bool): (v: Verdict) {
    if HasBannedWord(f.summary, words, caseSensitive) then Banned("summary")
    else if HasBannedWord(f.detail, words, caseSensitive) then Banned("detail")
    else if f.reproduction.Some? && HasBannedWord(f.reproduction.value, words, caseSensitive) then Banned("reproduction")
    else if contactOk && !ValidateEmail(GetOr(f.email, "")) then Rejected(BadRequest(EmailRequired))
    else Accepted(f)
  }

  function Validate(s: Submission, words: seq<string>, caseSensitive: bool): Verdict {
    match ParseFields(s)
    case Err(e) => Rejected(e)
    case Ok(f) => Screen(f, s.contactOk, words, caseSensitive)
  }

  /** A submission is accepted exactly when its fields parse, no checked
      field holds a banned word and, when contact is allowed, the email is
      valid; an accepted one carries the parsed fields, with summary and
      detail within their byte limits. */
  lemma AcceptedHasValidEmail(s: Submission, words: seq<string>, caseSensitive: bool)
    ensures var v := Validate(s, words, caseSensitive);
      v.Accepted? <==>
        ParseFields(s).Ok?
        && !HasBannedWord(ParseFields(s).value.summary, words, caseSensitive)
        && !HasBannedWord(ParseFields(s).value.detail, words, caseSensitive)
        && (ParseFields(s).value.reproduction.Some? ==>
              !HasBannedWord(ParseFields(s).value.reproduction.value, words, caseSensitive))
        && (s.contactOk ==> ValidateEmail(GetOr(ParseFields(s).value.email, "")))
    ensures var v := Validate(s, words, caseSensitive);
      v.Accepted? ==>
        v.fields == ParseFields(s).value
        && (s.contactOk ==> v.fields.email.Some? && ValidateEmail(v.fields.email.value))
        && 3 <= Text.Utf8Len(v.fields.summary) <= 120 && 5 <= Text.Utf8Len(v.fields.detail) <= 3000
  {
    match ParseFields(s)
    case Err(_) =>
    case Ok(f) => ScreenAccepted(f, s.contactOk, words, caseSensitive);
  }

  /** The screen refuses the first field, in the order summary, detail,
      reproduction, that holds a banned word, then an invalid email when
      contact is allowed, and accepts the fields unchanged exactly when
      none of these applies. */
  lemma ScreenAccepted(f: Fields, contactOk: bool, words: seq<string>, caseSensitive: bool)
    ensures var v := Screen(f, contactOk, words, caseSensitive);
      v.Accepted? <==>
        !HasBannedWord(f.summary, words, caseSensitive) && !HasBannedWord(f.detail, words, caseSensitive)
        && (f.reproduction.Some? ==> !HasBannedWord(f.reproduction.value, words, caseSensitive))
        && (contactOk ==> ValidateEmail(GetOr(f.email, "")))
    ensures var v := Screen(f, contactOk, words, caseSensitive);
      v.Accepted? ==> v.fields == f && (contactOk ==> f.email.Some? && ValidateEmail(f.email.value))
    ensures var v := Screen(f, contactOk, words, caseSensitive);
      (v == Banned("summary") <==> HasBannedWord(f.summary, words, caseSensitive))
      && (v == Banned("detail") <==>
            !HasBannedWord(f.summary, words, caseSensitive) && HasBannedWord(f.detail, words, caseSensitive))
  {
    EmptyEmailInvalid();
  }
}
