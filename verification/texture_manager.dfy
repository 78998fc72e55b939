/** The texture cache (managers/texture_manager.cpp).  Resolving a path
    against the resource directory and decoding the image file are outside
    the model: `getTexture` receives the resolved path and what the image
    decoder returns for it, and `loaded` records whether the decoder ran. */
module TextureManager {
  import opened Common

  /** OpenGL's pixel formats for one, three and four channels. */
  const GL_RED: nat := 0x1903
  const GL_RGB: nat := 0x1907
  const GL_RGBA: nat := 0x1908

  /** What the image decoder reports for a file it could read. */
  datatype Image = Image(width: int, height: int, channels: int)

  datatype Texture = Texture(width: int, height: int, format: nat)

  datatype TextureError = UnableToLoadImage(path: string) | UnsupportedImageFormat(path: string)

  /** The outcome of one `getTexture` call: the result, the cache after it,
      and whether the image was decoded. */
  datatype Fetched = Fetched(result: Result<Texture, TextureError>, cache: map<string, Texture>, loaded: bool)

  /** The pixel format for a channel count, 0 when unsupported. */
  function Format(channels: int): (f: nat)
    ensures f != 0 <==> channels == 1 || channels == 3 || channels == 4
    ensures channels == 1 ==> f == GL_RED
    ensures channels == 3 ==> f == GL_RGB
    ensures channels == 4 ==> f == GL_RGBA
  {
    if channels == 1 then GL_RED
    else if channels == 3 then GL_RGB
    else if channels == 4 then GL_RGBA
    else 0
  }

  /** Decoding a file: no image, or an unsupported channel count, is an
      error naming the resolved path. */
  function Decode(resourcePath: string, image: Option<Image>): (r: Result<Texture, TextureError>)
    ensures image.None? ==> r == Err(UnableToLoadImage(resourcePath))
    ensures image.Some? && Format(image.value.channels) == 0 ==> r == Err(UnsupportedImageFormat(resourcePath))
    ensures r.Ok? <==> image.Some? && Format(image.value.channels) != 0
    ensures r.Ok? ==> r.value.width == image.value.width && r.value.height == image.value.height &&
                      r.value.format == Format(image.value.channels)
  {
    if image.None? then Err(UnableToLoadImage(resourcePath))
    else if Format(image.value.channels) == 0 then Err(UnsupportedImageFormat(resourcePath))
    else Ok(Texture(image.value.width, image.value.height, Format(image.value.channels)))
  }

  /** `getTexture` as written: the cache is probed with the resolved path
      but a new texture is stored under the path as given. */
  function FetchAsWritten(cache: map<string, Texture>, path: string, resourcePath: string, image: Option<Image>): (f: Fetched)
    ensures resourcePath in cache ==> f == Fetched(Ok(cache[resourcePath]), cache, false)
    ensures resourcePath !in cache ==> f.loaded && f.result == Decode(resourcePath, image)
    ensures f.result.Err? ==> f.cache == cache
    ensures resourcePath !in cache && f.result.Ok? ==> f.cache == cache[path := f.result.value]
  {
    if resourcePath in cache then Fetched(Ok(cache[resourcePath]), cache, false)
    else
      var r := Decode(resourcePath, image);
      Fetched(r, if r.Ok? then cache[path := r.value] else cache, true)
  }

  /** `getTexture` with the store key the cache probe uses. */
  function Fetch(cache: map<string, Texture>, path: string, resourcePath: string, image: Option<Image>): (f: Fetched)
    ensures resourcePath in cache ==> f == Fetched(Ok(cache[resourcePath]), cache, false)
    ensures resourcePath !in cache ==> f.loaded && f.result == Decode(resourcePath, image)
    ensures f.result.Err? ==> f.cache == cache
    ensures resourcePath !in cache && f.result.Ok? ==> f.cache == cache[resourcePath := f.result.value]
  {
    if resourcePath in cache then Fetched(Ok(cache[resourcePath]), cache, false)
    else
      var r := Decode(resourcePath, image);
      Fetched(r, if r.Ok? then cache[resourcePath := r.value] else cache, true)
  }

  /** As written, a path that differs from its resolved form is never
      served from the cache: asking for it again decodes the image again,
      and yields whatever the decoder now returns. */
  lemma AsWrittenReloads(cache: map<string, Texture>, path: string, resourcePath: string, first: Option<Image>, second: Option<Image>)
    requires path != resourcePath && resourcePath !in cache
    ensures var f1 := FetchAsWritten(cache, path, resourcePath, first);
            var f2 := FetchAsWritten(f1.cache, path, resourcePath, second);
            f2.loaded && f2.result == Decode(resourcePath, second)
  {
  }

  /** With matching keys, a texture once loaded is served from the cache:
      the second request decodes nothing and returns the first texture. */
  lemma SecondFetchHits(cache: map<string, Texture>, path: string, resourcePath: string, first: Option<Image>, second: Option<Image>)
    requires Fetch(cache, path, resourcePath, first).result.Ok?
    ensures var f1 := Fetch(cache, path, resourcePath, first);
            var f2 := Fetch(f1.cache, path, resourcePath, second);
            !f2.loaded && f2.result == f1.result && f2.cache == f1.cache
  {
  }

  class TextureManager {
    var textures: map<string, Texture>

    constructor ()
      ensures textures == map[]
    {
      textures := map[];
    }

    /** A cached texture is returned without decoding; otherwise the image
        is decoded and, when it is usable, stored under the key the cache is
        probed with (see `AsWrittenReloads` for the key the source stores under). */
    method GetTexture(path: string, resourcePath: string, image: Option<Image>)
      returns (r: Result<Texture, TextureError>, ghost loaded: bool)
      modifies this
      ensures Fetched(r, textures, loaded) == Fetch(old(textures), path, resourcePath, image)
    {
      if resourcePath in textures {
        return Ok(textures[resourcePath]), false;
      }
      loaded := true;
      if image.None? {
        return Err(UnableToLoadImage(resourcePath)), loaded;
      }
      var format := Format(image.value.channels);
      if format == 0 {
        return Err(UnsupportedImageFormat(resourcePath)), loaded;
      }
      var texture := Texture(image.value.width, image.value.height, format);
      textures := textures[resourcePath := texture];
      r := Ok(texture);
    }
  }
}
