/**
 * `Texture` (`Texture.cc`): textures share SDL handles through a
 * reference-counted list of loaded textures, and fonts are cached by name,
 * size and outline. SDL handles are opaque numbers; what SDL hands back
 * when asked to load (a new handle, or null) is a parameter.
 */
module Textures {
  import opened Actions

  /** `LoadedTexture`: a handle, the file it came from ("" if none) and how many `Texture`s use it. */
  datatype LoadedTexture = LoadedTexture(texture: nat, name: string, count: int)

  /** `LoadedFont`: a font handle and the key it is cached under. */
  datatype LoadedFont = LoadedFont(font: nat, name: string, size: int, outline: int)

  /** The index of the first entry holding `t`, or `|s|` if none does. */
  function FindTexture(s: seq<LoadedTexture>, t: nat): (i: nat)
    ensures i <= |s| && (i < |s| ==> s[i].texture == t)
    ensures forall j :: 0 <= j < i ==> s[j].texture != t
  {
    if s == [] then 0 else if s[0].texture == t then 0 else 1 + FindTexture(s[1..], t)
  }

  /** The index of the first entry loaded from file `name`, or `|s|` if none was. */
  function FindName(s: seq<LoadedTexture>, name: string): (i: nat)
    ensures i <= |s| && (i < |s| ==> s[i].name == name)
    ensures forall j :: 0 <= j < i ==> s[j].name != name
  {
    if s == [] then 0 else if s[0].name == name then 0 else 1 + FindName(s[1..], name)
  }

  /** The index of the first font cached under (`name`, `size`, `outline`), or `|s|`. */
  function FindFont(s: seq<LoadedFont>, name: string, size: int, outline: int): (i: nat)
    ensures i <= |s| && (i < |s| ==> s[i].name == name && s[i].size == size && s[i].outline == outline)
    ensures forall j :: 0 <= j < i ==> !(s[j].name == name && s[j].size == size && s[j].outline == outline)
  {
    if s == [] then 0
    else if s[0].name == name && s[0].size == size && s[0].outline == outline then 0
    else 1 + FindFont(s[1..], name, size, outline)
  }

  /**
   * The list is well formed: every entry is in use, no handle is listed
   * twice, and no file name other than "" is listed twice.
   */
  predicate ValidLoaded(s: seq<LoadedTexture>)
  {
    (forall i :: 0 <= i < |s| ==> s[i].count >= 1) &&
    (forall i, j :: 0 <= i < j < |s| ==> s[i].texture != s[j].texture) &&
    (forall i, j :: 0 <= i < j < |s| && s[i].name != "" ==> s[i].name != s[j].name)
  }

  /** `addToLoaded`: one more user of `t`, which is entered unnamed with count 1 if it is not listed. */
  function AddedTo(s: seq<LoadedTexture>, t: nat): seq<LoadedTexture>
  {
    var i := FindTexture(s, t);
    if i < |s| then s[i := s[i].(count := s[i].count + 1)] else s + [LoadedTexture(t, "", 1)]
  }

  /**
   * The destructor: one user fewer of `t`; an entry whose count reaches 0
   * is erased. The flag says whether the handle is destroyed: when its
   * entry goes, or when `t` was not listed at all.
   */
  function Released(s: seq<LoadedTexture>, t: nat): (seq<LoadedTexture>, bool)
  {
    var i := FindTexture(s, t);
    if i < |s| then
      if s[i].count - 1 == 0 then (s[..i] + s[i + 1..], true) else (s[i := s[i].(count := s[i].count - 1)], false)
    else (s, true)
  }

  /**
   * `Texture(name)`: a file loaded before is shared (one more user, no
   * load); otherwise the image SDL returns is listed under the name with
   * count 1, and a null image (`None`) is the thrown error, which leaves
   * the list as it was.
   */
  function Opened(s: seq<LoadedTexture>, name: string, image: Option<nat>): (seq<LoadedTexture>, Option<nat>)
  {
    var i := FindName(s, name);
    if i < |s| then (s[i := s[i].(count := s[i].count + 1)], Some(s[i].texture))
    else if image.None? then (s, None)
    else (s + [LoadedTexture(image.value, name, 1)], image)
  }

  /** `getFont`: a cached font is returned as is; otherwise the font SDL_ttf opens is cached, or a null font is the thrown error. */
  function FontFor(s: seq<LoadedFont>, name: string, size: int, outline: int, ttfFont: Option<nat>): (seq<LoadedFont>, Option<nat>)
  {
    var i := FindFont(s, name, size, outline);
    if i < |s| then (s, Some(s[i].font))
    else if ttfFont.None? then (s, None)
    else (s + [LoadedFont(ttfFont.value, name, size, outline)], ttfFont)
  }

  /** `addToLoaded` keeps the list well formed, and afterwards `t` is listed with one more user than before. */
  lemma AddedToValid(s: seq<LoadedTexture>, t: nat)
    requires ValidLoaded(s)
    ensures ValidLoaded(AddedTo(s, t))
    ensures var i := FindTexture(AddedTo(s, t), t);
      i < |AddedTo(s, t)| &&
      AddedTo(s, t)[i].count == (if FindTexture(s, t) < |s| then s[FindTexture(s, t)].count else 0) + 1
  {
    var i := FindTexture(s, t);
    if i == |s| {
      AppendValid(s, LoadedTexture(t, "", 1));
      assert AddedTo(s, t)[|s|].texture == t;
    } else {
      RecountValid(s, i, s[i].count + 1);
      FindAfterUpdate(s, t, i, s[i].(count := s[i].count + 1));
    }
  }

  /** The destructor keeps the list well formed, and never destroys a handle that still has users. */
  lemma ReleasedValid(s: seq<LoadedTexture>, t: nat)
    requires ValidLoaded(s)
    ensures ValidLoaded(Released(s, t).0)
    ensures Released(s, t).1 <==> FindTexture(s, t) == |s| || s[FindTexture(s, t)].count == 1
    ensures Released(s, t).1 ==> FindTexture(Released(s, t).0, t) == |Released(s, t).0|
  {
    var i := FindTexture(s, t);
    if i < |s| {
      if s[i].count == 1 {
        EraseValid(s, i);
      } else {
        RecountValid(s, i, s[i].count - 1);
      }
    }
  }

  /** Erasing an entry keeps the list well formed, and its handle is listed no more. */
  lemma EraseValid(s: seq<LoadedTexture>, i: nat)
    requires ValidLoaded(s) && i < |s|
    ensures ValidLoaded(s[..i] + s[i + 1..])
    ensures FindTexture(s[..i] + s[i + 1..], s[i].texture) == |s| - 1
  {
    var r := s[..i] + s[i + 1..];
    assert forall j :: 0 <= j < |r| ==> r[j] == s[if j < i then j else j + 1];
  }

  /** Giving an entry another positive count keeps the list well formed. */
  lemma RecountValid(s: seq<LoadedTexture>, i: nat, count: int)
    requires ValidLoaded(s) && i < |s| && count >= 1
    ensures ValidLoaded(s[i := s[i].(count := count)])
  {
    var r := s[i := s[i].(count := count)];
    assert forall j :: 0 <= j < |r| ==> r[j].texture == s[j].texture && r[j].name == s[j].name;
  }

  /** Appending an entry in use whose handle, and name unless "", are not listed yet keeps the list well formed. */
  lemma AppendValid(s: seq<LoadedTexture>, e: LoadedTexture)
    requires ValidLoaded(s) && e.count >= 1 && FindTexture(s, e.texture) == |s|
    requires e.name != "" ==> FindName(s, e.name) == |s|
    ensures ValidLoaded(s + [e])
  {
    var r := s + [e];
    forall i, j | 0 <= i < j < |r|
      ensures r[i].texture != r[j].texture
      ensures r[i].name != "" ==> r[i].name != r[j].name
    {
      assert r[i] == s[i];
      if j < |s| {
        assert r[j] == s[j];
      }
    }
  }


  /** Adding a user and releasing it again: the listed case. */
  lemma ReleaseUndoesBump(s: seq<LoadedTexture>, t: nat, i: nat)
    requires i == FindTexture(s, t) && i < |s| && s[i].count >= 1
    ensures Released(AddedTo(s, t), t) == (s, false)
  {
    var a := AddedTo(s, t);
    assert a == s[i := s[i].(count := s[i].count + 1)];
    assert FindTexture(a, t) == i by {
      FindAfterUpdate(s, t, i, s[i].(count := s[i].count + 1));
    }
    var b := a[i := a[i].(count := a[i].count - 1)];
    assert Released(a, t) == (b, false);
    assert b == s by {
      assert b[i] == s[i];
      assert forall j | 0 <= j < |s| :: b[j] == s[j];
    }
  }

  /** Changing an entry's count keeps its handle where the search finds it. */
  lemma FindAfterUpdate(s: seq<LoadedTexture>, t: nat, i: nat, e: LoadedTexture)
    requires i == FindTexture(s, t) && i < |s| && e.texture == t
    ensures FindTexture(s[i := e], t) == i
  {
    var a := s[i := e];
    assert a[i].texture == t;
    assert forall j :: 0 <= j < i ==> a[j].texture == s[j].texture;
  }

  /** Adding a user and releasing it again: the unlisted case. */
  lemma ReleaseUndoesAppend(s: seq<LoadedTexture>, t: nat)
    requires FindTexture(s, t) == |s|
    ensures Released(AddedTo(s, t), t) == (s, true)
  {
    var a := s + [LoadedTexture(t, "", 1)];
    assert forall j :: 0 <= j < |s| ==> a[j] == s[j];
    assert a[|s|].texture == t;
    assert FindTexture(a, t) == |s|;
    assert a[..|s|] + a[|s| + 1..] == s;
  }

  /** Releasing a texture right after adding a user of it gives back the list as it was. */
  lemma ReleaseUndoesAdd(s: seq<LoadedTexture>, t: nat)
    requires ValidLoaded(s)
    ensures Released(AddedTo(s, t), t) == (s, FindTexture(s, t) == |s|)
  {
    var i := FindTexture(s, t);
    if i == |s| {
      ReleaseUndoesAppend(s, t);
    } else {
      ReleaseUndoesBump(s, t, i);
    }
  }

  /** Opening a file keeps the list well formed, SDL's image being a handle not listed yet. */
  lemma OpenedValid(s: seq<LoadedTexture>, name: string, image: Option<nat>)
    requires ValidLoaded(s) && name != ""
    requires image.Some? ==> FindTexture(s, image.value) == |s|
    ensures ValidLoaded(Opened(s, name, image).0)
  {
    var i := FindName(s, name);
    if i < |s| {
      RecountValid(s, i, s[i].count + 1);
    } else if image.Some? {
      AppendValid(s, LoadedTexture(image.value, name, 1));
    }
  }

  /**
   * The open fails exactly when the file is not listed and SDL returns null;
   * a successful open leaves the file listed with the returned handle, so
   * that opening it again shares that handle without a load.
   */
  lemma OpenedAgain(s: seq<LoadedTexture>, name: string, image: Option<nat>, again: Option<nat>)
    ensures Opened(s, name, image).1.Some? ==>
      var s' := Opened(s, name, image).0;
      FindName(s', name) < |s'| && s'[FindName(s', name)].texture == Opened(s, name, image).1.value &&
      Opened(s', name, again).1 == Opened(s, name, image).1
    ensures Opened(s, name, image).1.None? <==> FindName(s, name) == |s| && image.None?
  {
    var i := FindName(s, name);
    if i == |s| && image.Some? {
      var s' := s + [LoadedTexture(image.value, name, 1)];
      assert forall j :: 0 <= j < |s| ==> s'[j] == s[j];
      assert s'[|s|].name == name;
      assert FindName(s', name) == |s|;
    } else if i < |s| {
      var s' := s[i := s[i].(count := s[i].count + 1)];
      assert forall j :: 0 <= j < i ==> s'[j] == s[j];
      assert s'[i].name == name;
      assert FindName(s', name) == i;
    }
  }

  /** A font once returned is returned again for the same key, from the cache and without opening another. */
  lemma FontCached(s: seq<LoadedFont>, name: string, size: int, outline: int, ttfFont: Option<nat>, again: Option<nat>)
    ensures var (s', font) := FontFor(s, name, size, outline, ttfFont);
      font.Some? ==> FontFor(s', name, size, outline, again) == (s', font)
    ensures FontFor(s, name, size, outline, ttfFont).1.None? <==> FindFont(s, name, size, outline) == |s| && ttfFont.None?
  {
    var i := FindFont(s, name, size, outline);
    if i == |s| && ttfFont.Some? {
      var s' := s + [LoadedFont(ttfFont.value, name, size, outline)];
      assert s'[|s|] == LoadedFont(ttfFont.value, name, size, outline);
      assert FindFont(s', name, size, outline) == |s|;
    }
  }

  /** The static lists of `Texture`: loaded textures and loaded fonts. */
  class TextureCache {
    var loaded: seq<LoadedTexture>
    var fonts: seq<LoadedFont>

    predicate Valid()
      reads this
    {
      ValidLoaded(loaded)
    }

    constructor()
      ensures loaded == [] && fonts == [] && Valid()
    {
      loaded := [];
      fonts := [];
    }

    /** `addToLoaded`, for the handle `t`. */
    method AddToLoaded(t: nat)
      modifies this`loaded
      ensures loaded == AddedTo(old(loaded), t)
    {
      var i := 0;
      while i < |loaded|
        invariant 0 <= i <= |loaded| && loaded == old(loaded)
        invariant forall j :: 0 <= j < i ==> loaded[j].texture != t
      {
        if loaded[i].texture == t {
          loaded := loaded[i := loaded[i].(count := loaded[i].count + 1)];
          return;
        }
        i := i + 1;
      }
      loaded := loaded + [LoadedTexture(t, "", 1)];
    }

    /** The name lookup of `Texture(name)`; `image` is what SDL returns if asked to load. */
    method Open(name: string, image: Option<nat>) returns (texture: Option<nat>)
      requires name != ""
      modifies this`loaded
      ensures (loaded, texture) == Opened(old(loaded), name, image)
    {
      var i := 0;
      while i < |loaded|
        invariant 0 <= i <= |loaded| && loaded == old(loaded)
        invariant forall j :: 0 <= j < i ==> loaded[j].name != name
      {
        if loaded[i].name == name {
          texture := Some(loaded[i].texture);
          loaded := loaded[i := loaded[i].(count := loaded[i].count + 1)];
          return;
        }
        i := i + 1;
      }
      if image.None? {
        return None;
      }
      loaded := loaded + [LoadedTexture(image.value, name, 1)];
      texture := image;
    }

    /** The list work of `~Texture`, for the handle `t`: answers whether the handle is destroyed. */
    method Release(t: nat) returns (destroyed: bool)
      requires Valid()
      modifies this`loaded
      ensures (loaded, destroyed) == Released(old(loaded), t)
    {
      var i := 0;
      while i < |loaded|
        invariant 0 <= i <= |loaded| && loaded == old(loaded)
        invariant forall j :: 0 <= j < i ==> loaded[j].texture != t
      {
        if loaded[i].texture == t {
          var count := loaded[i].count - 1;
          assert count >= 0;
          if count == 0 {
            loaded := loaded[..i] + loaded[i + 1..];
            return true;
          }
          loaded := loaded[i := loaded[i].(count := count)];
          return false;
        }
        i := i + 1;
      }
      return true;
    }

    /** `getFont`; `ttfFont` is what SDL_ttf returns if asked to open the font. */
    method GetFont(name: string, size: int, outline: int, ttfFont: Option<nat>) returns (font: Option<nat>)
      modifies this`fonts
      ensures (fonts, font) == FontFor(old(fonts), name, size, outline, ttfFont)
    {
      var i := 0;
      while i < |fonts|
        invariant 0 <= i <= |fonts| && fonts == old(fonts)
        invariant forall j :: 0 <= j < i ==> !(fonts[j].name == name && fonts[j].size == size && fonts[j].outline == outline)
      {
        if fonts[i].name == name && fonts[i].size == size && fonts[i].outline == outline {
          return Some(fonts[i].font);
        }
        i := i + 1;
      }
      if ttfFont.None? {
        return None;
      }
      fonts := fonts + [LoadedFont(ttfFont.value, name, size, outline)];
      font := ttfFont;
    }
  }

  /** A `Texture`: its handle, and the shared lists it is counted in. */
  class Texture {
    const cache: TextureCache
    var texture: nat

    /**
     * The constructors that make a handle with SDL (rendered text, a blank
     * render target): the new handle is entered with `addToLoaded`.
     */
    constructor Made(cache: TextureCache, handle: nat)
      modifies cache`loaded
      ensures this.cache == cache && texture == handle
      ensures cache.loaded == AddedTo(old(cache.loaded), handle)
    {
      this.cache := cache;
      texture := handle;
      new;
      cache.AddToLoaded(handle);
    }

    /** The end of `Texture(name)`: the handle found or loaded, already counted in the list. */
    constructor Shared(cache: TextureCache, handle: nat)
      ensures this.cache == cache && texture == handle
    {
      this.cache := cache;
      texture := handle;
    }

    /** The copy constructor: `*this = other` on a new texture, so one more user of `other`'s handle. */
    constructor Copy(other: Texture)
      modifies other.cache`loaded
      ensures cache == other.cache && texture == other.texture
      ensures cache.loaded == AddedTo(old(other.cache.loaded), other.texture)
    {
      cache := other.cache;
      texture := other.texture;
      new;
      cache.AddToLoaded(texture);
    }

    /**
     * `operator=`: nothing on self-assignment; otherwise this texture takes
     * the other's handle and adds a user of it. The handle it held before
     * keeps its count.
     */
    method Assign(other: Texture)
      requires other.cache == cache
      modifies this`texture, cache`loaded
      ensures this == other ==> texture == old(texture) && cache.loaded == old(cache.loaded)
      ensures this != other ==> texture == other.texture && cache.loaded == AddedTo(old(cache.loaded), other.texture)
    {
      if this == other {
        return;
      }
      texture := other.texture;
      cache.AddToLoaded(texture);
    }

    /** `~Texture`: one user fewer of the handle; answers whether the handle is destroyed. */
    method Destroy() returns (destroyed: bool)
      requires cache.Valid()
      modifies cache`loaded
      ensures (cache.loaded, destroyed) == Released(old(cache.loaded), texture)
      ensures cache.Valid()
    {
      ReleasedValid(cache.loaded, texture);
      destroyed := cache.Release(texture);
    }
  }

  /**
   * `Texture(name)`: shares the handle of a file loaded before, or lists the
   * image SDL returns; `None` is the exception thrown when SDL returns null.
   */
  method OpenTexture(cache: TextureCache, name: string, image: Option<nat>) returns (r: Option<Texture>)
    requires cache.Valid() && name != ""
    requires image.Some? ==> FindTexture(cache.loaded, image.value) == |cache.loaded|
    modifies cache`loaded
    ensures (cache.loaded, if r.Some? then Some(r.value.texture) else None) == Opened(old(cache.loaded), name, image)
    ensures r.Some? ==> fresh(r.value) && r.value.cache == cache
    ensures cache.Valid()
  {
    OpenedValid(cache.loaded, name, image);
    var handle := cache.Open(name, image);
    if handle.None? {
      return None;
    }
    var t := new Texture.Shared(cache, handle.value);
    return Some(t);
  }
}
