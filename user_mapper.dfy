/** UserMapper: field-by-field copies between the user entity and its DTO. */
module UserMapper {
  import opened Model

  /** mapToUser. */
  function MapToUser(userDto: UserDto): (r: User)
    ensures r.id == userDto.id && r.name == userDto.name && r.email == userDto.email
  {
    User(userDto.id, userDto.name, userDto.email)
  }

  /** mapToUserDto. */
  function MapToUserDto(user: User): (r: UserDto)
    ensures r.id == user.id && r.name == user.name && r.email == user.email
  {
    UserDto(user.id, user.name, user.email)
  }

  /** The two copies are inverse to each other, in both orders. */
  lemma RoundTrips(userDto: UserDto, user: User)
    ensures MapToUserDto(MapToUser(userDto)) == userDto
    ensures MapToUser(MapToUserDto(user)) == user
  {
  }
}
