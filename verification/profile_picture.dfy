/** The profile picture in the page header, which the dashboard and the
    blog landing page resolve by the same expression: a stored picture path
    becomes a URL on the API server, and a profile without a picture shows a
    page-specific default image. */
module ProfilePicture {
  import opened Common
  import opened Text

  const ServerBase: string := "http://localhost:5000/"

  /** The picture's `src`: a value that already starts with `http` is an
      absolute URL and is used as it is; any other value is a path on the
      API server, with one leading `/` dropped so that it is not doubled. */
  function ImageUrl(picture: string): (url: string)
    ensures StartsWith(picture, "http") ==> url == picture
    ensures !StartsWith(picture, "http") && StartsWith(picture, "/") ==> url == ServerBase + picture[1..]
    ensures !StartsWith(picture, "http") && !StartsWith(picture, "/") ==> url == ServerBase + picture
  {
    if StartsWith(picture, "http") then picture
    else ServerBase + (if StartsWith(picture, "/") then picture[1..] else picture)
  }

  /** Every resolved picture is an absolute URL, and resolving it again
      leaves it as it is. */
  lemma ImageUrlAbsolute(picture: string)
    ensures StartsWith(ImageUrl(picture), "http")
    ensures ImageUrl(ImageUrl(picture)) == ImageUrl(picture)
  {
    var url := ImageUrl(picture);
    if !StartsWith(picture, "http") {
      var rest := if StartsWith(picture, "/") then picture[1..] else picture;
      assert url == ServerBase + rest;
      assert url[..4] == ServerBase[..4] == "http";
    }
  }

  /** A server path written with or without its leading `/` resolves to
      the same URL, and only one `/` is dropped: `//x` keeps one. */
  lemma RelativePath(path: string)
    requires !StartsWith(path, "http") && !StartsWith(path, "/")
    ensures ImageUrl(path) == ServerBase + path
    ensures ImageUrl("/" + path) == ServerBase + path
    ensures ImageUrl("//" + path) == ServerBase + "/" + path
  {
    assert ("/" + path)[..1] == "/";
    assert ("/" + path)[1..] == path;
    assert ("//" + path)[..1] == "/";
    assert ("//" + path)[1..] == "/" + path;
    assert ServerBase + ("/" + path) == ServerBase + "/" + path;
  }

  /** The profile fetched from the API; only its picture is shown here. */
  datatype Profile = Profile(picture: Option<string>)

  /** What the page shows: a URL, or the page's own default image. */
  datatype Image = Url(url: string) | Default

  /** `userData` after the page has loaded: with no token no request is
      made and it stays `null`; a failed request (`None` response) leaves
      it `null` as well. */
  function LoadedProfile(token: Option<string>, response: Option<Profile>): (u: Option<Profile>)
    ensures !Truthy(token) ==> u.None?
    ensures Truthy(token) ==> u == response
  {
    if Truthy(token) then response else None
  }

  /** The header image: the resolved picture when the profile has a
      non-empty one, the default otherwise. */
  function Shown(profile: Option<Profile>): (img: Image)
    ensures img.Default? <==> profile.None? || !Truthy(profile.value.picture)
    ensures img.Url? ==> img.url == ImageUrl(profile.value.picture.value)
  {
    if profile.Some? && Truthy(profile.value.picture) then Url(ImageUrl(profile.value.picture.value))
    else Default
  }
}
