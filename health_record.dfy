/** The health record's photo list, kept in one nullable text column as JSON. */
module HealthRecordModel {
  import opened Wrappers
  import opened JsonText

  /** A `health_records` row; only the photo column matters here. */
  class HealthRecord {
    var photoUrls: Option<string>

    constructor (photoUrls: Option<string>)
      ensures this.photoUrls == photoUrls
    {
      this.photoUrls := photoUrls;
    }

    /** `get_photo_list`: an empty list for a null or empty column and for text that is not
        JSON, otherwise whatever the text decodes to. */
    function GetPhotoList(): (r: Json)
      reads this
      ensures photoUrls.None? || photoUrls.value == [] ==> r == JArray([])
      ensures photoUrls.Some? && Loads(photoUrls.value).Err? ==> r == JArray([])
      ensures photoUrls.Some? && Loads(photoUrls.value).Ok? ==> r == Loads(photoUrls.value).value
    {
      if photoUrls.None? || photoUrls.value == [] then JArray([])
      else
        match Loads(photoUrls.value)
        case Ok(v) => v
        case Err(_) => JArray([])
    }

    /** `set_photo_list`: an empty list clears the column; any other list is stored as JSON
        text, which reads back as the same list. */
    method SetPhotoList(photos: seq<string>)
      modifies this
      ensures photos == [] ==> photoUrls.None?
      ensures photos != [] ==> photoUrls == Some(DumpStrings(photos))
      ensures GetPhotoList() == JArray(Strings(photos))
    {
      if photos == [] {
        photoUrls := None;
      } else {
        photoUrls := Some(DumpStrings(photos));
        LoadsDumpStrings(photos);
      }
    }
  }

  /** Malformed text in the column reads as no photos: a bare file name, for instance. */
  lemma MalformedColumnReadsEmpty(record: HealthRecord)
    requires record.photoUrls.Some? && record.photoUrls.value != []
    requires SkipWs(record.photoUrls.value) == [] || NoValueStart(SkipWs(record.photoUrls.value)[0])
    ensures record.GetPhotoList() == JArray([])
  {
    LoadsRejectsNonValues(record.photoUrls.value);
  }
}
