/** The camera record's video list, kept in one text column as JSON. */
module CameraDataModel {
  import opened Wrappers
  import opened JsonText

  /** A `camera_data` row; only the video column matters here. */
  class CameraData {
    var videoUrl: Option<string>

    constructor (videoUrl: Option<string>)
      ensures this.videoUrl == videoUrl
    {
      this.videoUrl := videoUrl;
    }

    /** `get_video_urls`: an empty list for a null or empty column, otherwise the decoded text;
        text that is not JSON raises, which is the `Err` here. */
    function GetVideoUrls(): (r: Result<Json, DecodeError>)
      reads this
      ensures videoUrl.None? || videoUrl.value == [] ==> r == Ok(JArray([]))
      ensures videoUrl.Some? && videoUrl.value != [] ==> r == Loads(videoUrl.value)
    {
      if videoUrl.Some? && videoUrl.value != [] then Loads(videoUrl.value) else Ok(JArray([]))
    }

    /** `set_video_urls`: the list is always stored as JSON text, `[]` for the empty list, and
        reads back as the same list. */
    method SetVideoUrls(urls: seq<string>)
      modifies this
      ensures videoUrl == Some(DumpStrings(urls))
      ensures urls == [] ==> videoUrl == Some("[]")
      ensures GetVideoUrls() == Ok(JArray(Strings(urls)))
    {
      videoUrl := Some(DumpStrings(urls));
      LoadsDumpStrings(urls);
      if urls == [] {
        assert Quoted(urls) == [];
        assert DumpStrings(urls) == "[]";
      }
    }
  }

  /** Malformed text in the column makes reading the list fail. */
  lemma MalformedColumnRaises(camera: CameraData)
    requires camera.videoUrl.Some? && camera.videoUrl.value != []
    requires SkipWs(camera.videoUrl.value) == [] || NoValueStart(SkipWs(camera.videoUrl.value)[0])
    ensures camera.GetVideoUrls().Err?
  {
    LoadsRejectsNonValues(camera.videoUrl.value);
  }
}
