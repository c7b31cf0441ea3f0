/** What a media extractor says about its tracks, whose code is not part of this model. */
module Media {

  datatype Mime = Audio | Video | Other
}
