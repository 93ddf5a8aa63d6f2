/** The user record shared by the remote directory, the browser's stored list
    and the add-user form. */
module Users {

  datatype Geo = Geo(lat: string, lng: string)

  datatype Address = Address(street: string, suite: string, city: string, zipcode: string, geo: Geo)

  datatype Company = Company(name: string, catchPhrase: string, bs: string)

  /** A record as the add-user form hands it over: every field but `id`. */
  datatype Profile = Profile(
    name: string,
    username: string,
    email: string,
    phone: string,
    website: string,
    address: Address,
    company: Company)

  /** A record of the directory: a profile spread into an object together with
      its numeric `id`. */
  datatype User = User(
    id: int,
    name: string,
    username: string,
    email: string,
    phone: string,
    website: string,
    address: Address,
    company: Company)

  /** The profile part of a record, that is, the record without its id. */
  function ProfileOf(u: User): Profile {
    Profile(u.name, u.username, u.email, u.phone, u.website, u.address, u.company)
  }

  /** `{ ...profile, id }`: the profile with every field kept and `id` set. */
  function WithId(p: Profile, id: int): (u: User)
    ensures u.id == id && ProfileOf(u) == p
  {
    User(id, p.name, p.username, p.email, p.phone, p.website, p.address, p.company)
  }
}
