/** The `Image` entity: a file name, the surface decoded from it (or none) and
    whether it holds a texture. The decoder (`IMG_Load`) and the texture factory
    (`SDL_CreateTextureFromSurface`) are foreign calls; their outcomes are passed in
    as parameters, and the texture is reduced to whether one is held. */
module Images {
  import opened Surface
  import opened Fit

  class Image {
    var filename: string
    var image: Raster?
    var texture: bool

    ghost predicate Valid()
      reads this, image
    {
      image != null ==> image.Valid()
    }

    /** `is_old`: no surface, no texture and an empty file name. An old image
        holds no surface to fit, so it is trivially consistent. */
    predicate IsOld()
      reads this
      ensures IsOld() ==> image == null && Valid()
    {
      image == null && !texture && filename == ""
    }

    /** The default constructor: an old image. */
    constructor ()
      ensures Valid() && IsOld()
    {
      filename, image, texture := "", null, false;
    }

    /** `Image(const char *name)`: a fresh image that loads `name`, where `decoded`
        is what the decoder made of that file (null when it failed). */
    constructor FromFile(name: string, decoded: Raster?)
      requires decoded != null ==> decoded.Valid()
      ensures Valid() && filename == name && image == decoded && !texture
      ensures IsOld() <==> name == "" && decoded == null
    {
      filename, image, texture := name, decoded, false;
    }

    /** `load`: the surface becomes what the decoder returned, and the file name is
        recorded even when decoding failed, so a failed load of a non-empty name
        does not leave the image old. The texture is left as it was. */
    method Load(name: string, decoded: Raster?)
      requires decoded != null ==> decoded.Valid()
      modifies this`filename, this`image
      ensures Valid() && filename == name && image == decoded && texture == old(texture)
      ensures IsOld() <==> name == "" && decoded == null && !old(texture)
      ensures name != "" ==> !IsOld()
    {
      image := decoded;
      filename := name;
    }

    /** `reset`: drop the file name, the surface and the texture. */
    method Reset()
      modifies this`filename, this`image, this`texture
      ensures Valid() && IsOld()
    {
      filename := "";
      image := null;
      texture := false;
    }

    /** `get_texture`: an image that is old, or that has no surface, yields no
        texture and leaves the window size alone; otherwise the window size is
        fitted to the surface's aspect ratio and the texture becomes what the
        factory returned (`created`), which is also the result. The source guards
        on `is_old` alone and reads `image->w` of a missing surface after a failed
        load; the guard on the surface here is the intended behaviour. */
    method GetTexture(windowWidth: real, windowHeight: real, created: bool)
      returns (handle: bool, width: real, height: real)
      requires Valid()
      modifies this`texture
      ensures old(IsOld()) || image == null ==>
        !handle && width == windowWidth && height == windowHeight && texture == old(texture)
      ensures !old(IsOld()) && image != null ==>
        Size(width, height) == FitWindow(image.w, image.h, Size(windowWidth, windowHeight)) &&
        texture == created && handle == created
    {
      if IsOld() || image == null {
        return false, windowWidth, windowHeight;
      }
      width, height := windowWidth, windowHeight;
      if image.w > image.h {
        // `window_width / aspect_ratio`, with `aspect_ratio = w / h`
        height := width * image.h as real / image.w as real;
      } else {
        width := height * AspectRatio(image.w, image.h);
      }
      texture := created;
      handle := texture;
    }
  }

  /** The state that `get_texture` as written mishandles: a failed load of a
      non-empty name records the name, so the image is not old and passes the
      `is_old` guard, yet it holds no surface whose width could be read. */
  method FailedLoadPassesOldGuard(name: string) returns (img: Image)
    requires name != ""
    ensures !img.IsOld() && img.image == null
  {
    img := new Image();
    img.Load(name, null);
  }
}
