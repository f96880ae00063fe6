/**
 * Value types shared by the two backends: fixed-width integers, the optional
 * and fallible wrappers, piet's error kinds and the pixel formats a bitmap
 * target can be asked for.
 */
module PietTypes {

  /** An unsigned byte (Rust `u8`). */
  newtype u8 = x: int | 0 <= x < 0x100

  /** An unsigned 32-bit word (Rust `u32`), the packed RGBA form of a color. */
  newtype u32 = x: int | 0 <= x < 0x1_0000_0000

  datatype Option<T> = None | Some(value: T)

  /** The kinds of `piet::Error` that the modelled code produces. */
  datatype ErrorKind = NotSupported | MissingFeature

  /** `Result<T, piet::Error>`; the error is identified by its kind. */
  datatype Result<T> = Ok(value: T) | Err(error: ErrorKind)

  /** `piet::ImageFormat`: the layouts a caller can ask raw pixels in. */
  datatype ImageFormat = Rgb | RgbaSeparate | RgbaPremul
}
