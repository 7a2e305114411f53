/**
 * The new-post page's client logic: choosing a file (size limit of 50 MiB
 * checked before the MIME type, which must be an image or a video), clearing
 * the choice, the checks made before the upload request is sent, and how the
 * page takes the upload's outcome.
 * Object URLs and the base64 encoding of the file are not modelled; the
 * request body carries the chosen file itself.
 */
module CreatePage {
  import opened Base
  import opened Text

  const MaxFileSize: int := 50 * 1024 * 1024

  /** The parts of a browser `File` the page looks at. */
  datatype FileInfo = FileInfo(size: int, mimeType: string)

  datatype MediaKind = Image | Video

  datatype CreateState = CreateState(
    file: Option<FileInfo>,
    previewUrl: string,
    mediaType: Option<MediaKind>,
    error: string,
    loading: bool,
    uploading: bool)

  const InitialCreate: CreateState := CreateState(None, "", None, "", false, false)

  const MsgTooLarge: string := "文件大小不能超過 50MB"
  const MsgBadType: string := "請選擇圖片或影片文件"
  const MsgNoFile: string := "請選擇要上傳的文件"

  predicate IsImageType(t: string) { StartsWith(t, "image/") }
  predicate IsVideoType(t: string) { StartsWith(t, "video/") }

  /** A file the page accepts. */
  predicate Acceptable(f: FileInfo) {
    f.size <= MaxFileSize && (IsImageType(f.mimeType) || IsVideoType(f.mimeType))
  }

  /** The media kind the page assigns to an accepted file. */
  function KindOf(f: FileInfo): MediaKind {
    if IsImageType(f.mimeType) then Image else Video
  }

  /**
   * `handleFileChange`: nothing selected changes nothing; an oversized file
   * or a file of another type only sets the matching error; an accepted file
   * becomes the choice, with its kind and preview, and clears the error.
   */
  function FileChange(s: CreateState, selected: Option<FileInfo>, objectUrl: string): (r: CreateState)
    ensures selected.None? ==> r == s
    ensures selected.Some? && selected.value.size > MaxFileSize ==> r == s.(error := MsgTooLarge)
    ensures selected.Some? && selected.value.size <= MaxFileSize && !Acceptable(selected.value) ==>
      r == s.(error := MsgBadType)
    ensures selected.Some? && Acceptable(selected.value) ==>
      && r.file == selected && r.error == "" && r.previewUrl == objectUrl
      && (r.mediaType == Some(Image) <==> IsImageType(selected.value.mimeType))
      && (r.mediaType == Some(Video) <==> !IsImageType(selected.value.mimeType))
    ensures selected.Some? && Acceptable(selected.value) ==>
      r == s.(error := "", file := selected, previewUrl := objectUrl,
              mediaType := Some(if IsImageType(selected.value.mimeType) then Image else Video))
  {
    match selected
    case None => s
    case Some(f) =>
      if f.size > MaxFileSize then s.(error := MsgTooLarge)
      else if !IsImageType(f.mimeType) && !IsVideoType(f.mimeType) then s.(error := MsgBadType)
      else s.(error := "", file := Some(f), mediaType := Some(KindOf(f)), previewUrl := objectUrl)
  }

  /** `handleClearFile`: no file, no preview, no kind. */
  function ClearFile(s: CreateState): (r: CreateState)
    ensures r.file.None? && r.previewUrl == "" && r.mediaType.None?
    ensures r.error == s.error && r.loading == s.loading && r.uploading == s.uploading
  {
    s.(file := None, previewUrl := "", mediaType := None)
  }

  /**
   * Clearing forgets the file entirely: choosing after a clear gives the
   * state choosing alone would have given, except that a rejected choice
   * leaves no file behind; clearing twice is clearing once.
   */
  lemma ClearThenChoose(s: CreateState, f: FileInfo, url: string)
    ensures Acceptable(f) ==> FileChange(ClearFile(s), Some(f), url) == FileChange(s, Some(f), url)
    ensures !Acceptable(f) || f.size > MaxFileSize ==>
      FileChange(ClearFile(s), Some(f), url).file.None? && FileChange(ClearFile(s), Some(f), url).previewUrl == ""
    ensures ClearFile(ClearFile(s)) == ClearFile(s)
  {
  }

  /**
   * The page's file invariant: a kind is set exactly when a file is chosen,
   * and a chosen file is an acceptable one with the kind its type gives.
   */
  predicate FileConsistent(s: CreateState) {
    && (s.file.Some? <==> s.mediaType.Some?)
    && (s.file.Some? ==> Acceptable(s.file.value) && s.mediaType.value == KindOf(s.file.value))
  }

  /** Choosing and clearing files keeps the invariant, which holds initially. */
  lemma FileActionsKeepConsistent(s: CreateState, selected: Option<FileInfo>, url: string)
    requires FileConsistent(s)
    ensures FileConsistent(FileChange(s, selected, url))
    ensures FileConsistent(ClearFile(s))
    ensures FileConsistent(InitialCreate)
  {
  }

  /** The limit is inclusive: a file of exactly 50 MiB of an image type is taken. */
  lemma ExactLimitAccepted(s: CreateState, url: string)
    ensures FileChange(s, Some(FileInfo(52428800, "image/png")), url).file == Some(FileInfo(52428800, "image/png"))
    ensures FileChange(s, Some(FileInfo(52428801, "image/png")), url) == s.(error := MsgTooLarge)
  {
    assert StartsWith("image/png", "image/");
  }

  /** Size is checked first: an oversized file of a wrong type gets the size message. */
  lemma SizeCheckedBeforeType(s: CreateState, url: string)
    ensures FileChange(s, Some(FileInfo(MaxFileSize + 1, "text/plain")), url).error == MsgTooLarge
  {
  }

  /** The body of `POST /posts`: the chosen file, the caption, and the kind. */
  datatype NewPostBody = NewPostBody(media: FileInfo, caption: string, mediaType: Option<MediaKind>)

  datatype SubmitOutcome = RedirectToLogin | NothingSent | SendPost(body: NewPostBody)

  /**
   * `handleSubmit` up to the request: with no token the page redirects; with
   * no file it reports one is needed; otherwise it sends the file.
   */
  function Submit(s: CreateState, token: Option<string>, caption: string): (res: (SubmitOutcome, CreateState))
    ensures !Truthy(token) ==> res.0 == RedirectToLogin && res.1 == s.(error := "", loading := true, uploading := true)
    ensures Truthy(token) && s.file.None? ==>
      res.0 == NothingSent && res.1 == s.(error := MsgNoFile, loading := false, uploading := false)
    ensures res.0.SendPost? <==> Truthy(token) && s.file.Some?
    ensures res.0.SendPost? ==>
      res.0.body == NewPostBody(s.file.value, caption, s.mediaType) && res.1.loading && res.1.error == ""
  {
    var busy := s.(error := "", loading := true, uploading := true);
    if !Truthy(token) then (RedirectToLogin, busy)
    else if s.file.None? then (NothingSent, busy.(error := MsgNoFile, loading := false, uploading := false))
    else (SendPost(NewPostBody(s.file.value, caption, s.mediaType)), busy)
  }

  /** Every upload the page sends carries an acceptable file of the matching kind. */
  lemma SentFileIsAcceptable(s: CreateState, token: Option<string>, caption: string)
    requires FileConsistent(s)
    ensures var out := Submit(s, token, caption).0;
      out.SendPost? ==> Acceptable(out.body.media) && out.body.mediaType == Some(KindOf(out.body.media))
  {
  }

  const MsgReadFailed: string := "讀取文件失敗"
  const MsgRelogin: string := "請重新登入"
  const MsgCreateFailed: string := "創建失敗，請稍後重試"

  /**
   * How an upload ended: the post was created, the browser could not read
   * the file, or the request failed with an HTTP status (if any answer came)
   * and the answer's `message` field (if any).
   */
  datatype UploadResult = Uploaded | ReadFailed | RequestFailed(status: Option<int>, message: Option<string>)

  /** Where the page goes next: home, nowhere, or the login page after a delay. */
  datatype AfterUpload = GoHome | Stay | LoginSoon

  /**
   * The `onload`/`onerror` handlers: success leaves for the home page; a
   * failed read or request reports an error (the server's message first,
   * then a 401 prompt to log in again, then a generic retry message) and
   * ends loading. The chosen file stays chosen.
   */
  function ReceiveUpload(s: CreateState, r: UploadResult): (res: (AfterUpload, CreateState))
    ensures r.Uploaded? ==> res == (GoHome, s)
    ensures !r.Uploaded? ==>
      && res.0 != GoHome
      && res.1 == s.(error := res.1.error, loading := false, uploading := false)
      && res.1.error != ""
    ensures r.ReadFailed? ==> res.0 == Stay && res.1.error == MsgReadFailed
    ensures r.RequestFailed? && Truthy(r.message) ==> res.0 == Stay && res.1.error == r.message.value
    ensures r.RequestFailed? && !Truthy(r.message) ==>
      (res.0 == LoginSoon <==> r.status == Some(401))
      && res.1.error == (if r.status == Some(401) then MsgRelogin else MsgCreateFailed)
  {
    var idle := s.(loading := false, uploading := false);
    match r
    case Uploaded => (GoHome, s)
    case ReadFailed => (Stay, idle.(error := MsgReadFailed))
    case RequestFailed(status, message) =>
      if Truthy(message) then (Stay, idle.(error := message.value))
      else if status == Some(401) then (LoginSoon, idle.(error := MsgRelogin))
      else (Stay, idle.(error := MsgCreateFailed))
  }

  /**
   * A failed upload can be retried as is: pressing again (with the token
   * still there) sends the very same body.
   */
  lemma FailedUploadResendsSameBody(s: CreateState, token: Option<string>, caption: string, r: UploadResult)
    requires Truthy(token) && s.file.Some? && !r.Uploaded?
    ensures var s1 := Submit(s, token, caption).1;
      var s2 := ReceiveUpload(s1, r).1;
      Submit(s2, token, caption).0 == Submit(s, token, caption).0
      && FileConsistent(s) == FileConsistent(s2)
  {
  }
}
