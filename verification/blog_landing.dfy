/** The blog landing page's header picture. */
module BlogLanding {
  import opened Common
  import opened ProfilePicture

  /** An image source: a URL, or the profile picture bundled with the
      front end. */
  datatype Source = Remote(url: string) | BundledProfilePic

  /** The header image after loading: the resolved picture of a profile
      with a non-empty one, the bundled picture otherwise, and always the
      bundled one when there is no token, since no request is made. */
  function HeaderImage(token: Option<string>, response: Option<Profile>): (src: Source)
    ensures !Truthy(token) ==> src == BundledProfilePic
    ensures src.Remote? <==> Truthy(token) && response.Some? && Truthy(response.value.picture)
    ensures src.Remote? ==> src.url == ImageUrl(response.value.picture.value)
  {
    match Shown(LoadedProfile(token, response))
    case Url(url) => Remote(url)
    case Default => BundledProfilePic
  }
}
