/** react-example/Navigation.js: `getActiveClass`, which marks the menu
    item for the current page. */
module Navigation {
  import Js

  const AlbumsPath := "/albums"

  /** The class of the item for `path` when the browser is at `pathname`:
      the albums item also covers every album page under `/albums/`. */
  function ActiveClass(pathname: string, path: string): (r: string)
  {
    if path == AlbumsPath && pathname == AlbumsPath then "active"
    else if path == AlbumsPath && Js.StartsWith(pathname, AlbumsPath + "/") then "active"
    else if pathname == path then "active"
    else ""
  }

  /** The albums item is active exactly on `/albums` and below `/albums/`;
      every other item exactly on its own path. The class is "active" or
      empty. */
  lemma ActiveIff(pathname: string, path: string)
    ensures ActiveClass(pathname, path) == "active" || ActiveClass(pathname, path) == ""
    ensures path == AlbumsPath ==>
      (ActiveClass(pathname, path) == "active" <==>
         pathname == AlbumsPath || (|pathname| > 7 && pathname[..8] == "/albums/"))
    ensures path != AlbumsPath ==> (ActiveClass(pathname, path) == "active" <==> pathname == path)
  {
  }

  /** A path that only starts with the same letters, such as `/albumsX`,
      does not activate the albums item; an album page does. */
  lemma PrefixNeedsSlash()
    ensures ActiveClass("/albumsX", AlbumsPath) == ""
    ensures ActiveClass("/albums/7", AlbumsPath) == "active"
  {
    assert "/albums/7"[..8] == "/albums/";
    assert "/albumsX"[..8] != "/albums/" by {
      assert "/albumsX"[7] != '/';
    }
  }
}
