/** The fluent builder of src/design/builder.cpp. Each builder refers to one
    `Person` and updates its fields in place; `lives()` and `works()` switch
    to another builder over the same person. */
module Builder {
  import opened IntArith

  /** The six fields of a `Person`, as one value. */
  datatype Details = Details(
    streetAddress: string,
    postCode: string,
    city: string,
    companyName: string,
    position: string,
    annualIncome: int)

  /** A default-constructed `Person`: empty strings and `annual_income{0}`. */
  const EmptyDetails := Details("", "", "", "", "", 0)

  class Person {
    var streetAddress: string
    var postCode: string
    var city: string
    var companyName: string
    var position: string
    var annualIncome: int

    function Fields(): Details
      reads this
    {
      Details(streetAddress, postCode, city, companyName, position, annualIncome)
    }

    constructor ()
      ensures Fields() == EmptyDetails
    {
      streetAddress, postCode, city := "", "", "";
      companyName, position, annualIncome := "", "", 0;
    }
  }

  /** `PersonBuilder`: owns the person that every builder derived from it
      refers to. */
  class PersonBuilder {
    const person: Person

    constructor ()
      ensures fresh(person) && person.Fields() == EmptyDetails
    {
      person := new Person();
    }
  }

  /** `Person::create()`. */
  method Create() returns (builder: PersonBuilder)
    ensures fresh(builder) && fresh(builder.person) && builder.person.Fields() == EmptyDetails
  {
    builder := new PersonBuilder();
  }

  /** `PersonBuilderBase::lives()` of a builder referring to `person`: an
      address builder over the same person. */
  method Lives(person: Person) returns (builder: PersonAddressBuilder)
    ensures fresh(builder) && builder.person == person
  {
    builder := new PersonAddressBuilder(person);
  }

  /** `PersonBuilderBase::works()` of a builder referring to `person`: a job
      builder over the same person. */
  method Works(person: Person) returns (builder: PersonJobBuilder)
    ensures fresh(builder) && builder.person == person
  {
    builder := new PersonJobBuilder(person);
  }

  /** `PersonBuilderBase::operator Person()`: the result takes the person's
      fields by move, which leaves the referred person valid but with
      unspecified contents. */
  method ToPerson(person: Person) returns (result: Person)
    modifies person
    ensures fresh(result) && result.Fields() == old(person.Fields())
  {
    result := new Person();
    result.streetAddress, result.postCode, result.city := person.streetAddress, person.postCode, person.city;
    result.companyName, result.position, result.annualIncome := person.companyName, person.position, person.annualIncome;
  }

  class PersonAddressBuilder {
    const person: Person

    constructor (person: Person)
      ensures this.person == person
    {
      this.person := person;
    }

    /** `at(street_address)`: sets the street address and nothing else. */
    method At(streetAddress: string) returns (self: PersonAddressBuilder)
      modifies person
      ensures self == this
      ensures person.Fields() == old(person.Fields()).(streetAddress := streetAddress)
    {
      person.streetAddress := streetAddress;
      self := this;
    }

    /** `with_post_code(post_code)`: sets the post code and nothing else. */
    method WithPostCode(postCode: string) returns (self: PersonAddressBuilder)
      modifies person
      ensures self == this
      ensures person.Fields() == old(person.Fields()).(postCode := postCode)
    {
      person.postCode := postCode;
      self := this;
    }

    /** `in(city)`: sets the city and nothing else. */
    method In(city: string) returns (self: PersonAddressBuilder)
      modifies person
      ensures self == this
      ensures person.Fields() == old(person.Fields()).(city := city)
    {
      person.city := city;
      self := this;
    }
  }

  class PersonJobBuilder {
    const person: Person

    constructor (person: Person)
      ensures this.person == person
    {
      this.person := person;
    }

    /** `at(company_name)`: sets the company name and nothing else. */
    method At(companyName: string) returns (self: PersonJobBuilder)
      modifies person
      ensures self == this
      ensures person.Fields() == old(person.Fields()).(companyName := companyName)
    {
      person.companyName := companyName;
      self := this;
    }

    /** `as_a(position)`: sets the position and nothing else. */
    method AsA(position: string) returns (self: PersonJobBuilder)
      modifies person
      ensures self == this
      ensures person.Fields() == old(person.Fields()).(position := position)
    {
      person.position := position;
      self := this;
    }

    /** `earning(annual_income)`: sets the income and nothing else. */
    method Earning(annualIncome: int) returns (self: PersonJobBuilder)
      requires InInt(annualIncome)
      modifies person
      ensures self == this
      ensures person.Fields() == old(person.Fields()).(annualIncome := annualIncome)
    {
      person.annualIncome := annualIncome;
      self := this;
    }
  }

  /** The chain in `main`: every setter lands on the one person `create()`
      made, whatever builder it goes through. */
  method BuildExample() returns (job: PersonJobBuilder, built: Details)
    ensures built == Details("123 London Road", "SW12BC", "London", "Fabrikam", "Engineer", 123000)
    ensures job.person.Fields() == built
  {
    var start := Create();
    var address := Lives(start.person);
    address := address.At("123 London Road");
    address := address.In("London");
    address := address.WithPostCode("SW12BC");
    job := Works(address.person);
    job := job.At("Fabrikam");
    job := job.AsA("Engineer");
    job := job.Earning(123000);
    built := job.person.Fields();
  }
}
