/** Draft uploads and their normalisation when a stored draft is loaded. */
module DraftUploads {
  import opened Wrappers
  import opened Sequences

  datatype Attachment = Attachment(id: string, filename: string, url: string, download_url: string,
                                   size_bytes: int, content_type: string)

  datatype Status = Uploading | Failed | Interrupted

  datatype Upload =
    | Pending(clientUploadId: string, filename: string, size: int, contentType: Option<string>,
              status: Status, error: Option<string>)
    | Uploaded(clientUploadId: string, filename: string, size: int, contentType: Option<string>, attachment: Attachment)

  // What a stored list may hold: uploads, attachments kept by older builds, and anything else.
  datatype Raw = Entry(upload: Upload) | Bare(attachment: Attachment) | Junk

  function ToUpload(a: Attachment): Upload {
    Uploaded(if a.id != "" then a.id else a.url, a.filename, a.size_bytes,
             if a.content_type == "" then None else Some(a.content_type), a.(download_url := ""))
  }

  // What one stored item loads as.
  function Loaded(item: Raw): seq<Upload> {
    match item
    case Entry(u) => if u.Pending? && u.status == Uploading then [] else [u]
    case Bare(a) => [ToUpload(a)]
    case Junk => []
  }

  function Normalized(raw: seq<Raw>): seq<Upload> {
    if raw == [] then [] else Normalized(raw[..|raw| - 1]) + Loaded(raw[|raw| - 1])
  }

  method NormalizeStoredUploads(raw: seq<Raw>) returns (out: seq<Upload>)
    ensures out == Normalized(raw)
  {
    out := [];
    for i := 0 to |raw|
      invariant out == Normalized(raw[..i])
    {
      assert raw[..i + 1][..i] == raw[..i];
      match raw[i]
      case Entry(u) =>
        if u.Uploaded? || u.status != Uploading {
          out := out + [u];
        }
      case Bare(a) =>
        out := out + [ToUpload(a)];
      case Junk =>
    }
    assert raw[..|raw|] == raw;
  }

  function AsStored(u: Upload): Raw {
    Entry(u)
  }

  // What a list of uploads loads as once it has been stored.
  function Settled(us: seq<Upload>): seq<Upload> {
    Normalized(Map(AsStored, us))
  }

  predicate InFlight(u: Upload) {
    u.Pending? && u.status == Uploading
  }

  lemma {:induction false} NothingInFlight(raw: seq<Raw>)
    ensures forall u | u in Normalized(raw) :: !InFlight(u)
  {
    if raw != [] {
      NothingInFlight(raw[..|raw| - 1]);
    }
  }

  lemma {:induction false} SettledStays(us: seq<Upload>)
    requires forall u | u in us :: !InFlight(u)
    ensures Settled(us) == us
  {
    if us != [] {
      InitLast(us);
      SettledStays(us[..|us| - 1]);
      assert Map(AsStored, us)[..|us| - 1] == Map(AsStored, us[..|us| - 1]);
      assert us == us[..|us| - 1] + [us[|us| - 1]] && !InFlight(us[|us| - 1]);
    }
  }

  /** Loading, storing and loading again changes nothing more. */
  lemma NormalizationIsStable(raw: seq<Raw>)
    ensures Settled(Normalized(raw)) == Normalized(raw)
  {
    NothingInFlight(raw);
    SettledStays(Normalized(raw));
  }
}
