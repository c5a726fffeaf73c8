/** The decoded record shapes. */
module Records {

  datatype Person = Person(name: string)

  datatype Movie = Movie(title: string, releaseYear: int, actors: seq<Person>, director: Person)
}
