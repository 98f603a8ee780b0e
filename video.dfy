/**
 * The `Video` record that the sync works on: a video id, a title and the
 * publication time. A .NET `DateTime` is represented by its tick count, which
 * is what `DateTime.CompareTo` compares.
 */
module Videos {
  /** Tick count of `DateTime.MaxValue` (23:59:59.9999999, 31 December 9999). */
  const MaxValueTicks: int := 3155378975999999999

  /**
   * The three properties are set by the constructor and by nothing else in the
   * program, so they are fields that keep their constructed values.
   */
  class Video {
    const VideoId: string
    const Title: string
    const PublishedAt: int

    // A private field that shares its name with the constructor parameter; it
    // keeps its initial value, since the constructor assigns the property
    // `PublishedAt` and never this field.
    const publishedAt: int := MaxValueTicks

    constructor (videoID: string, title: string, publishedAt: int)
      ensures VideoId == videoID && Title == title && PublishedAt == publishedAt
      ensures this.publishedAt == MaxValueTicks
    {
      VideoId := videoID;
      Title := title;
      PublishedAt := publishedAt;
    }
  }
}
