/** The movie record the catalogue supplies (the fields the recommendation code reads). */
module Catalogue {
  datatype Movie = Movie(
    id: int,
    title: string,
    genres: seq<string>,
    experience: string,      // experience_type: fun, intense, emotional, relaxing
    ratingPercent: int,      // 0..100
    popularity: real,        // popularity_score, 0..1
    ageLimit: int,
    year: int,
    tags: seq<string>,       // cult, underrated, family-safe
    platforms: seq<string>)  // names of the streaming platforms carrying it
}
