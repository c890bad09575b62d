/** picsure/src/pages/Albums.jsx: the album form's validator, how an album
    card picks its image and title, and the album built locally when the
    server cannot be reached. A JavaScript string is truthy iff it is
    non-empty; a missing field is `None`. */
module AlbumCards {
  import opened Wrappers
  import Js

  /** The errors `validateForm` records. */
  datatype FormErrors = FormErrors(name: Option<string>, description: Option<string>)

  /** `validateForm` on the new-album dialog. */
  function ValidateForm(name: string, description: string): (e: FormErrors)
  {
    FormErrors(if name == "" then Some("Album name is required") else None,
               if description == "" then Some("Description is required") else None)
  }

  /** The form passes iff both fields are filled, and each empty field gets
      its own message. */
  lemma ValidateFormIff(name: string, description: string)
    ensures var e := ValidateForm(name, description);
            && (e.name.None? && e.description.None? <==> name != "" && description != "")
            && (e.name.Some? <==> name == "")
            && (e.description.Some? <==> description == "")
  {
  }

  const Placeholder := "/placeholder.jpg"
  const UploadsPrefix := "/uploads"

  /** The image of an album card: an uploaded file is served by the API
      host; any other thumbnail is used as it is; no thumbnail shows the
      placeholder. */
  function CardImage(apiUrl: string, thumbnail: Option<string>): (r: string)
  {
    if Js.Truthy(thumbnail) && Js.StartsWith(thumbnail.value, UploadsPrefix) then apiUrl + thumbnail.value
    else if Js.Truthy(thumbnail) then thumbnail.value
    else Placeholder
  }

  /** The three cases of the image, stated as what the card shows: the
      thumbnail appears in full at the end of the result whenever there is
      one, prefixed by the API host for uploads and by nothing otherwise;
      the image is never empty. */
  lemma CardImageCases(apiUrl: string, thumbnail: Option<string>)
    ensures !Js.Truthy(thumbnail) ==> CardImage(apiUrl, thumbnail) == Placeholder
    ensures CardImage(apiUrl, thumbnail) != ""
    ensures Js.Truthy(thumbnail) ==>
      var r := CardImage(apiUrl, thumbnail);
      && |r| >= |thumbnail.value|
      && r[|r| - |thumbnail.value|..] == thumbnail.value
      && (Js.StartsWith(thumbnail.value, UploadsPrefix) ==> r[..|r| - |thumbnail.value|] == apiUrl)
      && (!Js.StartsWith(thumbnail.value, UploadsPrefix) ==> r == thumbnail.value)
  {
  }

  /** The card title: `album_name`, falling back to `name`. Albums from
      the API carry `album_name`; the fallback serves locally built ones. */
  function Title(albumName: Option<string>, name: Option<string>): (r: Option<string>)
    ensures Js.Truthy(albumName) ==> r == albumName
    ensures !Js.Truthy(albumName) ==> r == name
  {
    if Js.Truthy(albumName) then albumName else name
  }

  /** The album `fallbackCreateAlbum` adds to the list. */
  datatype LocalAlbum = LocalAlbum(id: int, albumName: string, description: string, thumbnail: string, createdBy: int)

  const StockHost := "https://images.unsplash.com"
  const StockThumbnail := StockHost + "/photo-1557682250-f37ae56bf55e?w=500&auto=format&fit=crop&q=60&ixlib=rb-4.0.3"

  /** `fallbackCreateAlbum`. `random` is the value `Math.random()` returned;
      `objectUrl` is what `URL.createObjectURL` made of the chosen file,
      `None` when no file was chosen; `userId` is `user?.id`. */
  function FallbackAlbum(random: real, name: string, description: string, objectUrl: Option<string>,
                         userId: Option<int>): (a: LocalAlbum)
    requires 0.0 <= random < 1.0
    ensures 10 <= a.id <= 1009
    ensures a.createdBy != 0
    ensures userId.Some? && userId.value != 0 ==> a.createdBy == userId.value
    ensures !(userId.Some? && userId.value != 0) ==> a.createdBy == 1
    ensures a.albumName == name && a.description == description
  {
    LocalAlbum((random * 1000.0).Floor + 10, name, description,
               if objectUrl.Some? then objectUrl.value else StockThumbnail,
               if userId.Some? && userId.value != 0 then userId.value else 1)
  }

  /** The card of an album made from a form that passed `validateForm`
      and stored by `fallbackCreateAlbum` is titled with the name typed,
      and shows the chosen file or the stock picture. */
  lemma FallbackCardShowsForm(random: real, name: string, description: string, objectUrl: Option<string>,
                              userId: Option<int>, apiUrl: string)
    requires 0.0 <= random < 1.0
    requires ValidateForm(name, description) == FormErrors(None, None)
    requires objectUrl.Some? ==> objectUrl.value != "" && !Js.StartsWith(objectUrl.value, UploadsPrefix)
    ensures var a := FallbackAlbum(random, name, description, objectUrl, userId);
            && Title(Some(a.albumName), None) == Some(name)
            && CardImage(apiUrl, Some(a.thumbnail)) == (if objectUrl.Some? then objectUrl.value else StockThumbnail)
  {
    ValidateFormIff(name, description);
    assert StockThumbnail[..|UploadsPrefix|][0] == StockHost[0] != UploadsPrefix[0];
  }
}
