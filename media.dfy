/**
  The two record kinds: immutable holders of five fields each.
 */
module Media {

  /** A music track; `rating` is meant to lie in 1..10 but nothing checks it. */
  datatype Track = Track(title: string, artist: string, genre: string, duration: int, rating: int)

  /** A video; `views` is meant to be non-negative but nothing checks it. */
  datatype Video = Video(title: string, channel: string, category: string, duration: int, views: int)
}
